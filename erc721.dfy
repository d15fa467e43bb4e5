/**
 * The ERC-721 ownership ledger that every token type of the system is built
 * on: who owns which token id, which ids have been handed out, the per-token
 * approvals and the blanket operator approvals, and the rules for minting,
 * transferring and burning (the rules the shared token tests exercise for
 * every token type).
 */
module Erc721 {
  import opened Common

  /**
   * owners:    owner of every token id that currently exists
   * minted:    number of ids ever handed out; ids are given out in order 0, 1, 2, ...
   * approvals: the address approved for a single token id
   * operators: (owner, operator) pairs; the operator may move all of owner's tokens
   */
  datatype Ledger = Ledger(
    owners: map<nat, Address>,
    minted: nat,
    approvals: map<nat, Address>,
    operators: set<(Address, Address)>)

  const Empty: Ledger := Ledger(map[], 0, map[], {})

  /** id is one of the n ids starting at a. */
  predicate InRange(a: nat, n: nat, id: nat) {
    a <= id < a + n
  }

  /** The ids a .. a+n-1. */
  function Range(a: nat, n: nat): set<nat> {
    set id: nat | a <= id < a + n && InRange(a, n, id)
  }

  /** The ids 0 .. n-1. */
  function Ids(n: nat): set<nat> {
    Range(0, n)
  }

  /** Every existing token was handed out by the counter and has a non-zero owner. */
  ghost predicate WellFormed(l: Ledger) {
    forall id :: id in l.owners ==> id < l.minted && l.owners[id] != Zero
  }

  /** No token was ever burnt: exactly the ids 0 .. minted-1 exist. */
  ghost predicate NeverBurnt(l: Ledger) {
    l.owners.Keys == Ids(l.minted)
  }

  function OwnedBy(l: Ledger, a: Address): set<nat> {
    set id | id in l.owners && l.owners[id] == a
  }

  /** balanceOf(a) */
  function BalanceOf(l: Ledger, a: Address): nat {
    |OwnedBy(l, a)|
  }

  /** totalSupply() */
  function TotalSupply(l: Ledger): nat {
    |l.owners|
  }

  /** ownerOf(id): reverts for a token that does not exist. */
  function OwnerOf(l: Ledger, id: nat): (r: Result<Address>)
    ensures r.Ok? <==> id in l.owners
    ensures r.Ok? ==> id in OwnedBy(l, r.value)
  {
    if id in l.owners then Ok(l.owners[id]) else Err(NonexistentToken)
  }

  /** The spender may move the token: it is the owner, the token's approved address, or an operator of the owner. */
  predicate IsApprovedOrOwner(l: Ledger, spender: Address, id: nat)
    requires id in l.owners
  {
    var owner := l.owners[id];
    spender == owner
    || (id in l.approvals && l.approvals[id] == spender)
    || (owner, spender) in l.operators
  }

  /** The ids a .. a+n-1, all owned by `to`. */
  function Batch(a: nat, n: nat, to: Address): map<nat, Address> {
    map id: nat | a <= id < a + n && InRange(a, n, id) :: to
  }

  /** Mint n new tokens to `to`: they take the next n ids in order. */
  function Minted(l: Ledger, to: Address, n: nat): Ledger {
    l.(owners := l.owners + Batch(l.minted, n, to), minted := l.minted + n)
  }

  /** Mint n new tokens to `to` one at a time. */
  function MintedOneByOne(l: Ledger, to: Address, n: nat): Ledger {
    if n == 0 then l else Minted(MintedOneByOne(l, to, n - 1), to, 1)
  }

  /** Move one existing token to `to`, clearing its single-token approval (section "Transfer" of EIP-721). */
  function Moved(l: Ledger, id: nat, to: Address): Ledger {
    l.(owners := l.owners[id := to], approvals := l.approvals - {id})
  }

  /** Destroy the given tokens, clearing their approvals. */
  function Burned(l: Ledger, ids: set<nat>): Ledger {
    l.(owners := l.owners - ids, approvals := l.approvals - ids)
  }

  /** transferFrom(from, to, id) sent by `caller`, with its checks in the order the ledger makes them. */
  function Transfer(l: Ledger, caller: Address, from: Address, to: Address, id: nat): (r: Result<Ledger>)
    ensures r.Ok? <==> id in l.owners && IsApprovedOrOwner(l, caller, id) && l.owners[id] == from && to != Zero
  {
    if id !in l.owners then Err(NonexistentToken)
    else if !IsApprovedOrOwner(l, caller, id) then Err(NotOwnerNorApproved)
    else if l.owners[id] != from then Err(IncorrectOwner)
    else if to == Zero then Err(TransferToZero)
    else Ok(Moved(l, id, to))
  }

  /** approve(to, id) sent by `caller`. */
  function Approve(l: Ledger, caller: Address, to: Address, id: nat): (r: Result<Ledger>)
    ensures r.Ok? <==> id in l.owners && to != l.owners[id]
                       && (caller == l.owners[id] || (l.owners[id], caller) in l.operators)
    ensures r.Ok? ==> r.value.approvals == l.approvals[id := to] && r.value.owners == l.owners
                      && r.value.operators == l.operators && r.value.minted == l.minted
  {
    if id !in l.owners then Err(NonexistentToken)
    else if to == l.owners[id] then Err(ApprovalToCurrentOwner)
    else if caller != l.owners[id] && (l.owners[id], caller) !in l.operators then Err(ApproveNotOwnerNorOperator)
    else Ok(l.(approvals := l.approvals[id := to]))
  }

  /** setApprovalForAll(operator, approved) sent by `caller`. */
  function SetApprovalForAll(l: Ledger, caller: Address, operator: Address, approved: bool): (r: Result<Ledger>)
    ensures r.Ok? <==> caller != operator
    ensures r.Ok? ==> ((caller, operator) in r.value.operators <==> approved)
    ensures r.Ok? ==> r.value.operators - {(caller, operator)} == l.operators - {(caller, operator)}
    ensures r.Ok? ==> r.value.owners == l.owners && r.value.approvals == l.approvals && r.value.minted == l.minted
  {
    if caller == operator then Err(ApproveToCaller)
    else if approved then Ok(l.(operators := l.operators + {(caller, operator)}))
    else Ok(l.(operators := l.operators - {(caller, operator)}))
  }

  // ---------------------------------------------------------------------
  // Counting lemmas

  lemma {:induction false} RangeSize(a: nat, n: nat)
    ensures |Range(a, n)| == n
  {
    if n > 0 {
      RangeSize(a, n - 1);
      assert Range(a, n) == Range(a, n - 1) + {a + n - 1};
    } else {
      assert Range(a, n) == {};
    }
  }

  /** A ledger that never burnt has total supply equal to the number of ids handed out. */
  lemma SupplyOfNeverBurnt(l: Ledger)
    requires NeverBurnt(l)
    ensures TotalSupply(l) == l.minted
  {
    RangeSize(0, l.minted);
  }

  // ---------------------------------------------------------------------
  // Minting

  /** Minting keeps the ledger well formed and adds exactly the ids minted .. minted+n-1, all owned by `to`. */
  lemma MintedOwners(l: Ledger, to: Address, n: nat)
    requires WellFormed(l) && (n > 0 ==> to != Zero)
    ensures var l' := Minted(l, to, n);
      && WellFormed(l')
      && l'.owners.Keys == l.owners.Keys + Range(l.minted, n)
      && l.owners.Keys !! Range(l.minted, n)
      && (forall id :: l.minted <= id < l.minted + n ==> id in l'.owners && l'.owners[id] == to)
      && (forall id :: id in l.owners ==> l'.owners[id] == l.owners[id])
  {
  }

  /** The tokens an address holds after a mint. */
  lemma OwnedAfterMint(l: Ledger, to: Address, n: nat, a: Address)
    requires WellFormed(l) && (n > 0 ==> to != Zero)
    ensures OwnedBy(Minted(l, to, n), a) == if a == to then OwnedBy(l, a) + Range(l.minted, n) else OwnedBy(l, a)
  {
    var l' := Minted(l, to, n);
    forall id
      ensures id in OwnedBy(l', a) <==> id in (if a == to then OwnedBy(l, a) + Range(l.minted, n) else OwnedBy(l, a))
    {
      if InRange(l.minted, n, id) {
        assert id !in l.owners;
        assert l'.owners[id] == to;
      }
    }
  }

  /**
   * Minting n tokens to `to` raises `to`'s balance and the total supply by n
   * and leaves every other balance alone.
   */
  lemma MintedBalances(l: Ledger, to: Address, n: nat)
    requires WellFormed(l) && (n > 0 ==> to != Zero)
    ensures var l' := Minted(l, to, n);
      && BalanceOf(l', to) == BalanceOf(l, to) + n
      && (forall a :: a != to ==> BalanceOf(l', a) == BalanceOf(l, a))
      && TotalSupply(l') == TotalSupply(l) + n
  {
    var l' := Minted(l, to, n);
    MintedOwners(l, to, n);
    RangeSize(l.minted, n);
    assert |l'.owners.Keys| == |l.owners.Keys| + n;
    OwnedAfterMint(l, to, n, to);
    assert OwnedBy(l, to) !! Range(l.minted, n);
    forall a | a != to
      ensures BalanceOf(l', a) == BalanceOf(l, a)
    {
      OwnedAfterMint(l, to, n, a);
    }
  }

  /** Minting nothing changes nothing. */
  lemma MintedNothing(l: Ledger, to: Address)
    ensures Minted(l, to, 0) == l
  {
    assert Minted(l, to, 0).owners == l.owners;
  }

  /** Minting in two batches to the same address is minting once. */
  lemma MintedTwice(l: Ledger, to: Address, m: nat, n: nat)
    ensures Minted(Minted(l, to, m), to, n) == Minted(l, to, m + n)
  {
    var a := Minted(Minted(l, to, m), to, n).owners;
    var b := Minted(l, to, m + n).owners;
    forall id: nat
      ensures id in a <==> id in b
      ensures id in a ==> a[id] == b[id]
    {
      assert InRange(l.minted, m + n, id) <==> InRange(l.minted, m, id) || InRange(l.minted + m, n, id);
    }
    assert a == b;
  }

  /** Minting one token at a time is minting the batch. */
  lemma {:induction false} MintedOneByOneBatch(l: Ledger, to: Address, n: nat)
    ensures MintedOneByOne(l, to, n) == Minted(l, to, n)
  {
    if n == 0 {
      MintedNothing(l, to);
    } else {
      var m := n - 1;
      MintedOneByOneBatch(l, to, m);
      MintedTwice(l, to, m, 1);
      assert m + 1 == n;
    }
  }

  /**
   * When no token was ever burnt, a batch mint to `to` hands out the ids
   * totalSupply .. totalSupply+n-1, so ids are global and sequential across
   * recipients.
   */
  lemma MintedFromSupply(l: Ledger, to: Address, n: nat)
    requires WellFormed(l) && NeverBurnt(l) && (n > 0 ==> to != Zero)
    ensures NeverBurnt(Minted(l, to, n))
    ensures forall id :: TotalSupply(l) <= id < TotalSupply(l) + n ==>
              id in Minted(l, to, n).owners && Minted(l, to, n).owners[id] == to
    ensures TotalSupply(Minted(l, to, n)) == TotalSupply(l) + n
  {
    SupplyOfNeverBurnt(l);
    MintedOwners(l, to, n);
    MintedBalances(l, to, n);
    assert Ids(l.minted) + Range(l.minted, n) == Ids(l.minted + n);
  }

  // ---------------------------------------------------------------------
  // Transfer

  /**
   * A successful transfer makes `to` the owner of the token, takes one token
   * off `from`'s balance and adds one to `to`'s, leaves every other owner
   * and balance alone and leaves the total supply unchanged.
   */
  lemma {:induction false} TransferEffect(l: Ledger, caller: Address, from: Address, to: Address, id: nat)
    requires WellFormed(l)
    requires Transfer(l, caller, from, to, id).Ok?
    ensures var l' := Transfer(l, caller, from, to, id).value;
      && WellFormed(l')
      && l'.owners.Keys == l.owners.Keys && l'.minted == l.minted
      && l'.owners[id] == to
      && (forall other :: other in l.owners && other != id ==> l'.owners[other] == l.owners[other])
      && TotalSupply(l') == TotalSupply(l)
      && (from != to ==>
            BalanceOf(l', from) + 1 == BalanceOf(l, from) && BalanceOf(l', to) == BalanceOf(l, to) + 1)
      && (forall a :: a != from && a != to ==> BalanceOf(l', a) == BalanceOf(l, a))
      && (from == to ==> BalanceOf(l', to) == BalanceOf(l, to))
  {
    var l' := Moved(l, id, to);
    assert l'.owners.Keys == l.owners.Keys;
    if from != to {
      assert OwnedBy(l', from) == OwnedBy(l, from) - {id};
      assert OwnedBy(l', to) == OwnedBy(l, to) + {id};
      assert id !in OwnedBy(l, to);
    } else {
      assert OwnedBy(l', to) == OwnedBy(l, to);
    }
    forall a | a != from && a != to
      ensures BalanceOf(l', a) == BalanceOf(l, a)
    {
      assert OwnedBy(l', a) == OwnedBy(l, a);
    }
  }

  /**
   * The authorization rule: a caller that is neither the owner, nor approved
   * for the token, nor an operator of its owner is refused before anything
   * else is looked at, whatever `from` and `to` are.
   */
  lemma TransferAuthorization(l: Ledger, caller: Address, from: Address, to: Address, id: nat)
    requires id in l.owners
    ensures Transfer(l, caller, from, to, id) == Err(NotOwnerNorApproved) <==> !IsApprovedOrOwner(l, caller, id)
    ensures IsApprovedOrOwner(l, caller, id) && l.owners[id] != from ==>
              Transfer(l, caller, from, to, id) == Err(IncorrectOwner)
  {
  }

  /**
   * The refusals of approve come in a fixed order: a token that does not
   * exist, then approving its current owner, then a caller that is neither
   * the owner nor an operator of the owner.
   */
  lemma ApproveRefusals(l: Ledger, caller: Address, to: Address, id: nat)
    ensures id !in l.owners ==> Approve(l, caller, to, id) == Err(NonexistentToken)
    ensures id in l.owners && to == l.owners[id] ==> Approve(l, caller, to, id) == Err(ApprovalToCurrentOwner)
    ensures id in l.owners && to != l.owners[id] && caller != l.owners[id] && (l.owners[id], caller) !in l.operators ==>
              Approve(l, caller, to, id) == Err(ApproveNotOwnerNorOperator)
  {
  }

  // ---------------------------------------------------------------------
  // Burning

  /** Burning one existing token removes it, takes one off its owner's balance and one off the total supply. */
  lemma {:induction false} BurnedEffect(l: Ledger, id: nat)
    requires WellFormed(l) && id in l.owners
    ensures var l' := Burned(l, {id});
      && WellFormed(l')
      && id !in l'.owners && l'.minted == l.minted
      && TotalSupply(l') + 1 == TotalSupply(l)
      && BalanceOf(l', l.owners[id]) + 1 == BalanceOf(l, l.owners[id])
      && (forall a :: a != l.owners[id] ==> BalanceOf(l', a) == BalanceOf(l, a))
  {
    var l' := Burned(l, {id});
    var o := l.owners[id];
    assert l'.owners.Keys == l.owners.Keys - {id};
    assert OwnedBy(l', o) == OwnedBy(l, o) - {id};
    forall a | a != o
      ensures BalanceOf(l', a) == BalanceOf(l, a)
    {
      assert OwnedBy(l', a) == OwnedBy(l, a);
    }
  }
}
