/**
 * The rules every role-gated token type shares: sequential minting behind
 * the minter role, ERC-721 transfers and approvals, role grants, and the
 * royalty setting with its royaltyInfo quote (the "ERC721Resale" part).
 */
module SharedToken {
  import opened Common
  import opened Erc721

  /** 100% in basis points. */
  const MaxBips: nat := 10000

  /** Euclid's characterization of division rounded down, for a positive divisor. */
  lemma FloorDiv(x: nat, d: nat)
    requires d > 0
    ensures (x / d) * d <= x < (x / d + 1) * d
  {
    var q, r := x / d, x % d;
    assert x == q * d + r && 0 <= r < d;
    assert (q + 1) * d == q * d + d;
  }

  /**
   * The royalty owed on a sale, salePrice * bips / 10000 rounded down: the
   * largest amount whose 10000-fold does not exceed salePrice * bips, and
   * never more than the sale price itself.
   */
  function RoyaltyAmount(salePrice: nat, bips: nat): (amount: nat)
    requires bips <= MaxBips
    ensures amount * MaxBips <= salePrice * bips < (amount + 1) * MaxBips
    ensures amount <= salePrice
  {
    var amount := salePrice * bips / MaxBips;
    FloorDiv(salePrice * bips, MaxBips);
    assert salePrice * bips <= salePrice * MaxBips;
    assert amount * MaxBips <= salePrice * MaxBips;
    amount
  }

  /** Mint n tokens to `to`, one at a time, each taking the next id. */
  method MintEach(l: Ledger, to: Address, n: nat) returns (l': Ledger)
    ensures l' == Minted(l, to, n)
  {
    l' := l;
    var i := 0;
    while i < n
      invariant 0 <= i <= n
      invariant l' == MintedOneByOne(l, to, i)
    {
      l' := Minted(l', to, 1);
      i := i + 1;
    }
    MintedOneByOneBatch(l, to, n);
  }

  class Token {
    var ledger: Ledger
    var roles: set<(Role, Address)>
    var royaltyReceiver: Address
    var royaltyBips: nat

    /** Tokens are never burnt; the royalty receiver is never the zero address and the rate is at most 100%. */
    ghost predicate Valid()
      reads this
    {
      WellFormed(ledger) && NeverBurnt(ledger) && royaltyReceiver != Zero && royaltyBips <= MaxBips
    }

    predicate HasRole(role: Role, account: Address)
      reads this
    {
      (role, account) in roles
    }

    /** The deployer holds every role and receives royalties, at a rate of 0. */
    constructor (deployer: Address)
      requires deployer != Zero
      ensures Valid() && ledger == Empty
      ensures forall role :: HasRole(role, deployer)
      ensures forall role, a :: a != deployer ==> !HasRole(role, a)
      ensures royaltyReceiver == deployer && royaltyBips == 0
    {
      ledger := Empty;
      roles := {(Admin, deployer), (Minter, deployer), (Reveal, deployer), (Royalty, deployer)};
      royaltyReceiver := deployer;
      royaltyBips := 0;
      new;
      forall role: Role
        ensures HasRole(role, deployer)
      {
        match role
        case Admin =>
        case Minter =>
        case Reveal =>
        case Royalty =>
      }
    }

    /**
     * safeMint(to, n): a minter mints n tokens to `to`, one at a time; they
     * take the ids totalSupply .. totalSupply+n-1.
     */
    method SafeMint(caller: Address, to: Address, n: nat) returns (r: Outcome)
      requires Valid()
      modifies this
      ensures Valid()
      ensures r == (if !HasRole(Minter, caller) then Fail(MissingRole(Minter))
                    else if n > 0 && to == Zero then Fail(MintToZero)
                    else Pass)
      ensures ledger == if r.Pass? then Minted(old(ledger), to, n) else old(ledger)
      ensures r.Pass? ==> TotalSupply(ledger) == old(TotalSupply(ledger)) + n
      ensures r.Pass? ==> forall id :: old(TotalSupply(ledger)) <= id < old(TotalSupply(ledger)) + n ==>
                            id in ledger.owners && ledger.owners[id] == to
      ensures r.Pass? ==> BalanceOf(ledger, to) == old(BalanceOf(ledger, to)) + n
      ensures r.Pass? ==> forall a :: a != to ==> BalanceOf(ledger, a) == old(BalanceOf(ledger, a))
      ensures roles == old(roles) && royaltyReceiver == old(royaltyReceiver) && royaltyBips == old(royaltyBips)
    {
      if !HasRole(Minter, caller) {
        return Fail(MissingRole(Minter));
      }
      if n > 0 && to == Zero {
        return Fail(MintToZero);
      }
      ledger := MintEach(ledger, to, n);
      MintedOwners(old(ledger), to, n);
      MintedFromSupply(old(ledger), to, n);
      MintedBalances(old(ledger), to, n);
      r := Pass;
    }

    /** mint(to): a minter mints one token to `to`, taking the next id. */
    method Mint(caller: Address, to: Address) returns (r: Outcome)
      requires Valid()
      modifies this
      ensures Valid()
      ensures r == (if !HasRole(Minter, caller) then Fail(MissingRole(Minter))
                    else if to == Zero then Fail(MintToZero)
                    else Pass)
      ensures ledger == if r.Pass? then Minted(old(ledger), to, 1) else old(ledger)
      ensures r.Pass? ==> var id := old(TotalSupply(ledger)); id in ledger.owners && ledger.owners[id] == to
      ensures roles == old(roles) && royaltyReceiver == old(royaltyReceiver) && royaltyBips == old(royaltyBips)
    {
      r := SafeMint(caller, to, 1);
    }

    /** transferFrom(from, to, id) sent by `caller`. */
    method TransferFrom(caller: Address, from: Address, to: Address, id: nat) returns (r: Outcome)
      requires Valid()
      modifies this
      ensures Valid()
      ensures var t := Transfer(old(ledger), caller, from, to, id);
        && (t.Ok? ==> r == Pass && ledger == t.value)
        && (t.Err? ==> r == Fail(t.error) && ledger == old(ledger))
      ensures r.Pass? ==> ledger.owners[id] == to && TotalSupply(ledger) == old(TotalSupply(ledger))
      ensures r.Pass? && from != to ==>
                BalanceOf(ledger, from) + 1 == old(BalanceOf(ledger, from))
                && BalanceOf(ledger, to) == old(BalanceOf(ledger, to)) + 1
      ensures roles == old(roles) && royaltyReceiver == old(royaltyReceiver) && royaltyBips == old(royaltyBips)
    {
      var t := Transfer(ledger, caller, from, to, id);
      if t.Err? {
        return Fail(t.error);
      }
      TransferEffect(ledger, caller, from, to, id);
      ledger := t.value;
      r := Pass;
    }

    /** approve(to, id) sent by `caller`. */
    method Approve(caller: Address, to: Address, id: nat) returns (r: Outcome)
      requires Valid()
      modifies this
      ensures Valid()
      ensures var t := Erc721.Approve(old(ledger), caller, to, id);
        && (t.Ok? ==> r == Pass && ledger == t.value)
        && (t.Err? ==> r == Fail(t.error) && ledger == old(ledger))
      ensures roles == old(roles) && royaltyReceiver == old(royaltyReceiver) && royaltyBips == old(royaltyBips)
    {
      var t := Erc721.Approve(ledger, caller, to, id);
      if t.Err? {
        return Fail(t.error);
      }
      ledger := t.value;
      r := Pass;
    }

    /** setApprovalForAll(operator, approved) sent by `caller`. */
    method SetApprovalForAll(caller: Address, operator: Address, approved: bool) returns (r: Outcome)
      requires Valid()
      modifies this
      ensures Valid()
      ensures var t := Erc721.SetApprovalForAll(old(ledger), caller, operator, approved);
        && (t.Ok? ==> r == Pass && ledger == t.value)
        && (t.Err? ==> r == Fail(t.error) && ledger == old(ledger))
      ensures roles == old(roles) && royaltyReceiver == old(royaltyReceiver) && royaltyBips == old(royaltyBips)
    {
      var t := Erc721.SetApprovalForAll(ledger, caller, operator, approved);
      if t.Err? {
        return Fail(t.error);
      }
      ledger := t.value;
      r := Pass;
    }

    /** grantRole(role, account): only an admin may grant roles. */
    method GrantRole(caller: Address, role: Role, account: Address) returns (r: Outcome)
      requires Valid()
      modifies this
      ensures Valid()
      ensures r == if HasRole(Admin, caller) then Pass else Fail(MissingRole(Admin))
      ensures roles == if r.Pass? then old(roles) + {(role, account)} else old(roles)
      ensures ledger == old(ledger) && royaltyReceiver == old(royaltyReceiver) && royaltyBips == old(royaltyBips)
    {
      if !HasRole(Admin, caller) {
        return Fail(MissingRole(Admin));
      }
      roles := roles + {(role, account)};
      r := Pass;
    }

    /**
     * setRoyalty(receiver, bips): a royalty-role holder sets exactly the
     * receiver and the rate; a zero receiver or a rate above 100% is refused.
     */
    method SetRoyalty(caller: Address, receiver: Address, bips: nat) returns (r: Outcome)
      requires Valid()
      modifies this
      ensures Valid()
      ensures r == (if !HasRole(Royalty, caller) then Fail(MissingRole(Royalty))
                    else if receiver == Zero then Fail(RoyaltyReceiverZero)
                    else if bips > MaxBips then Fail(RoyaltyBipsTooHigh)
                    else Pass)
      ensures r.Pass? ==> royaltyReceiver == receiver && royaltyBips == bips
      ensures r.Fail? ==> royaltyReceiver == old(royaltyReceiver) && royaltyBips == old(royaltyBips)
      ensures ledger == old(ledger) && roles == old(roles)
    {
      if !HasRole(Royalty, caller) {
        return Fail(MissingRole(Royalty));
      }
      if receiver == Zero {
        return Fail(RoyaltyReceiverZero);
      }
      if bips > MaxBips {
        return Fail(RoyaltyBipsTooHigh);
      }
      royaltyReceiver, royaltyBips := receiver, bips;
      r := Pass;
    }

    /**
     * royaltyInfo(tokenId, salePrice): the current receiver and the rounded
     * down share salePrice * bips / 10000, whatever the token id.
     */
    function RoyaltyInfo(tokenId: nat, salePrice: nat): (r: (Address, nat))
      reads this
      requires Valid()
      ensures r.0 == royaltyReceiver
      ensures r.1 * MaxBips <= salePrice * royaltyBips < (r.1 + 1) * MaxBips
      ensures r.1 <= salePrice
      ensures royaltyBips == 0 ==> r.1 == 0
    {
      (royaltyReceiver, RoyaltyAmount(salePrice, royaltyBips))
    }
  }
}
