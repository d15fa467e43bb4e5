/**
 * The fungible payment token a crate sale is paid in, reduced to what a
 * purchase touches: balances, allowances, and transferFrom, which either
 * succeeds or makes the whole purchase revert.
 */
module Payment {
  import opened Common

  /** allowances[(owner, spender)] is what spender may still move out of owner's balance. */
  datatype Erc20 = Erc20(balances: map<Address, nat>, allowances: map<(Address, Address), nat>)

  function BalanceOf(e: Erc20, a: Address): nat {
    if a in e.balances then e.balances[a] else 0
  }

  function Allowance(e: Erc20, owner: Address, spender: Address): nat {
    if (owner, spender) in e.allowances then e.allowances[(owner, spender)] else 0
  }

  /**
   * transferFrom(from, to, amount) sent by `spender`: the allowance is spent
   * first, then the balance is moved.
   */
  function TransferFrom(e: Erc20, spender: Address, from: Address, to: Address, amount: nat): (r: Result<Erc20>)
    ensures r.Ok? <==> amount <= Allowance(e, from, spender) && to != Zero && amount <= BalanceOf(e, from)
  {
    if Allowance(e, from, spender) < amount then Err(InsufficientAllowance)
    else if to == Zero then Err(TransferToZero)
    else if BalanceOf(e, from) < amount then Err(InsufficientBalance)
    else
      var spent := e.allowances[(from, spender) := Allowance(e, from, spender) - amount];
      var debited := e.balances[from := BalanceOf(e, from) - amount];
      var credited := debited[to := (if to in debited then debited[to] else 0) + amount];
      Ok(Erc20(credited, spent))
  }

  /**
   * A successful transferFrom debits exactly `amount` from `from`, credits
   * exactly `amount` to `to` (the two cancel when they are the same account),
   * changes no other balance, and lowers the spender's allowance by `amount`.
   */
  lemma TransferFromEffect(e: Erc20, spender: Address, from: Address, to: Address, amount: nat)
    requires TransferFrom(e, spender, from, to, amount).Ok?
    ensures var e' := TransferFrom(e, spender, from, to, amount).value;
      && (forall a :: BalanceOf(e', a) ==
            BalanceOf(e, a) - (if a == from then amount else 0) + (if a == to then amount else 0))
      && Allowance(e', from, spender) == Allowance(e, from, spender) - amount
  {
  }
}
