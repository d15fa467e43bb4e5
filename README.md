# Crisium core token rules, modelled in Dafny

This project models the token contracts of the Crisium "IM Space" system as
their behaviour is pinned down by the repository's test suites:

- **The loot-crate token** (`IMSpaceLootCrateToken`). It is an ERC-721
  token. Each token is a *crate* that holds, in escrow, a fixed bundle of
  prize tokens.
  - The sale is configured with an ordered list of prize kinds and a
    per-crate quantity of each.
  - Each crate created by `reserve` (owner-only) or `purchase` (paid in an
    ERC-20 token) mints the next block of ids of every prize kind to the
    crate contract and records them as the crate's contents.
  - `revealFrom` hands a crate's prizes to a chosen account and destroys
    the crate. `forceReveal` lets the contract owner do the same for a list
    of crates, each revealed for its own holder.
- **The mission token's fair-reveal index** (`IMSpaceMissionToken`). A block
  number is committed in one of three ways:
  - by the mint that reaches `MAX_SUPPLY`;
  - by any mint at or after `REVEAL_TIMESTAMP`;
  - in an emergency, by a reveal-role holder.

  The starting index is then derived once from that block's hash: the hash
  modulo `MAX_SUPPLY`, with 0 replaced by 1.
- **The shared token rules** every token type follows:
  - sequential minting behind the minter role;
  - ERC-721 transfers and approvals;
  - the royalty setting and its `royaltyInfo` quote.

Files:

| file | module | contents |
|---|---|---|
| common.dfy | `Common` | addresses, roles, the revert reasons, `Result`/`Outcome` |
| erc721.dfy | `Erc721` | the ownership ledger as a value, and the rules for minting, transferring, approving and burning |
| erc20.dfy | `Payment` | the payment token: balances, allowances and `transferFrom` |
| token.dfy | `SharedToken` | class `Token`: the ledger, the roles and the royalty setting |
| mission.dfy | `Mission` | class `MissionToken`: a `Token` plus the fair-reveal fields |
| layout.dfy | `CrateLayout` | which prize ids sit in which crate, and in what order |
| lootcrate.dfy | `LootCrate` | class `LootCrateToken`: crates, contents, the prize ledgers and the sale state |

The loot-crate contract keeps one invariant, `LootCrate.Consistent`, which
every operation preserves. It has three parts:

- Exactly the live crates have recorded contents, and a crate's contents
  follow the layout.
- Prize kind `k` has had `N * quantities[k]` ids minted, where `N` counts
  every crate ever created.
- Every prize of every live crate is held by the crate contract.

Block hashes, block numbers and the current time are parameters of the
operations that read them. The payment token is a value passed into
`purchase` and returned from it. On every error the whole call has no
effect, as a Solidity revert has.

## Model

| member | source | states |
|---|---|---|
| Erc721.BalanceOf | test/shared/tokens.js:848-869 | `balanceOf(a)`: the number of existing tokens whose owner is `a` (a definition; its behaviour under mint, transfer and burn is stated by `MintedBalances`, `TransferEffect` and `BurnedEffect`) |
| Erc721.TotalSupply | test/shared/tokens.js:135-178 | `totalSupply()`: the number of existing tokens (a definition; see `SupplyOfNeverBurnt` and `MintedFromSupply`) |
| Erc721.IsApprovedOrOwner | test/shared/tokens.js:514-566 | the spender is the token's owner, its approved address, or an operator of its owner (a definition; used by `Transfer` and `LootCrate.RevealCheck`) |
| Erc721.Burned | test/im-space-loot-crate-token.js:600-606 | destroying tokens removes their owners and approvals and leaves the id counter alone, so ids are not reused (a definition; see `BurnedEffect`) |
| Erc721.OwnerOf | test/shared/tokens.js:835-869 | `ownerOf` reverts exactly for a token that does not exist; otherwise it names the account that holds the token |
| Erc721.Transfer | test/shared/tokens.js:511-566 | a transfer succeeds exactly when the token exists, the caller is its owner, its approved address or an operator of its owner, `from` is the current owner, and `to` is not zero |
| Erc721.TransferAuthorization | test/shared/tokens.js:514-566 | an unauthorised caller is refused with "not token owner or approved", whatever `from` and `to` are; an authorised caller naming the wrong `from` is refused with "incorrect owner" |
| Erc721.TransferEffect | test/shared/tokens.js:568-618 | after a successful transfer `to` owns the token; `from` loses one token and `to` gains one; every other owner and balance and the total supply are unchanged |
| Erc721.Approve | test/shared/tokens.js:530-541 | approve succeeds exactly when the token exists, `to` is not its current owner, and the caller is the owner or an operator of the owner; a successful approve sets the token's approved address and changes no owner, operator or counter |
| Erc721.ApproveRefusals | test/shared/tokens.js:530-541 | approve refuses in a fixed order: a nonexistent token, then approval to the current owner, then a caller that is neither owner nor operator |
| Erc721.SetApprovalForAll | test/shared/tokens.js:548-556 | setting an operator succeeds unless the caller names itself; afterwards the pair is an operator exactly when `approved` was true; every other operator pair, every owner and every approval is unchanged |
| Erc721.MintedOwners | test/shared/tokens.js:70-113 | a mint of n tokens adds exactly the next n ids, all owned by the recipient, and leaves earlier owners alone |
| Erc721.MintedBalances | test/shared/tokens.js:135-178 | a mint of n tokens raises the recipient's balance and the total supply by n and leaves every other balance alone |
| Erc721.MintedFromSupply | test/shared/tokens.js:135-178 | without burns, a mint of n tokens hands out the ids totalSupply .. totalSupply+n-1, so ids are global and sequential across recipients |
| Erc721.MintedOneByOneBatch | test/shared/tokens.js:135-178 | minting n tokens one at a time gives the same ledger as minting the batch at once |
| Erc721.SupplyOfNeverBurnt | test/shared/tokens.js:135-178 | without burns, the total supply is the number of ids ever handed out |
| Erc721.BurnedEffect | test/im-space-loot-crate-token.js:578-626 | destroying a token makes it nonexistent and takes one off its holder's balance and off the total supply; no other balance changes |
| Payment.TransferFrom | test/im-space-loot-crate-token.js:371-384 | the payment token's `transferFrom` succeeds exactly when the allowance and the balance both cover the amount and the destination is not zero |
| Payment.TransferFromEffect | test/im-space-loot-crate-token.js:386-410 | a successful payment debits `from` by exactly the amount, credits `to` by exactly the amount, touches no other balance and spends the allowance |
| SharedToken.RoyaltyAmount | test/shared/tokens.js:483-505 | the royalty is salePrice * bips / 10000 rounded down: the largest amount whose 10000-fold is at most salePrice * bips; it never exceeds the sale price |
| SharedToken.MintEach | test/shared/tokens.js:135-178 | minting one token at a time, n times, mints the batch of n |
| SharedToken.Token.constructor | test/shared/tokens.js:462-481 | a new token has no tokens; the deployer holds every role and receives royalties, at 0 bips |
| SharedToken.Token.SafeMint | test/shared/tokens.js:118-178 | non-minters are refused; otherwise the ids totalSupply .. totalSupply+n-1 go to `to`, whose balance rises by n; every other balance is unchanged |
| SharedToken.Token.Mint | test/shared/tokens.js:53-113 | non-minters are refused; otherwise the next id, totalSupply, goes to `to` |
| SharedToken.Token.TransferFrom | test/shared/tokens.js:511-618 | applies the transfer rule; on success `to` owns the token, `from`'s balance falls by one, `to`'s rises by one, and the total supply is unchanged; on failure nothing changes |
| SharedToken.Token.Approve | test/shared/tokens.js:530-541 | applies the approve rule to the token's ledger; on failure nothing changes |
| SharedToken.Token.SetApprovalForAll | test/shared/tokens.js:548-556 | applies the operator rule to the token's ledger; on failure nothing changes |
| SharedToken.Token.HasRole | test/shared/tokens.js:56-68 | an account holds a role exactly when the pair was granted (a definition; every role-gated operation checks it first) |
| SharedToken.Token.GrantRole | test/im-space-loot-crate-token.js:183-185 | only an admin may grant a role; a grant adds exactly that role to that account |
| SharedToken.Token.SetRoyalty | test/shared/tokens.js:375-438 | callers without the royalty role are refused, then a zero receiver, then a rate above 10000 bips; otherwise exactly the receiver and the rate are set |
| SharedToken.Token.RoyaltyInfo | test/shared/tokens.js:459-505 | returns the current receiver and salePrice * bips / 10000 rounded down, whatever the token id; at 0 bips the amount is 0 |
| Mission.StartingIndexFrom | test/im-space-mission-token.js:215-221 | the index is the hash modulo MAX_SUPPLY, with 0 replaced by 1; it is never 0, and is below MAX_SUPPLY unless MAX_SUPPLY is 1 |
| Mission.StartingIndexOne | test/im-space-mission-token.js:219-221 | the index is 1 exactly when the hash is 0 or 1 modulo MAX_SUPPLY |
| Mission.StartingIndexOnto | test/im-space-mission-token.js:219-221 | every index 1 .. MAX_SUPPLY-1 can come out |
| Mission.MissionToken.constructor | test/im-space-mission-token.js:56-66 | a new mission token has no tokens, a starting-index block of 0, a starting index of 0, and the deployer as royalty receiver at 0 bips |
| Mission.MissionToken.SafeMint | test/im-space-mission-token.js:143-177 | a successful mint commits the current block only if no block is committed yet and either the supply has reached MAX_SUPPLY or the time is at or after REVEAL_TIMESTAMP; any other mint leaves the block unchanged |
| Mission.MissionToken.EmergencySetStartingIndexBlock | test/im-space-mission-token.js:179-232 | callers without the reveal role are refused, then calls made after the index is set; otherwise the current block overwrites the committed one, however often this is called |
| Mission.MissionToken.SetStartingIndex | test/im-space-mission-token.js:205-232 | refused once the index is set, then while no block is committed; otherwise the index is derived from the committed block's hash and is non-zero |
| Mission.MissionToken.SetProvenanceHash | test/im-space-mission-token.js:79-103 | callers without the reveal role are refused; otherwise the hash is overwritten and nothing else changes |
| Mission.MissionToken.SetRevealTimestamp | test/im-space-mission-token.js:105-128 | callers without the reveal role are refused; otherwise the timestamp is overwritten and nothing else changes |
| CrateLayout.InCrateByDivision | test/im-space-loot-crate-token.js:256-272 | a prize of kind k with id t is in crate c exactly when t / quantities[k] == c, so each prize belongs to one crate |
| CrateLayout.LayoutLength | test/im-space-loot-crate-token.js:276-290 | every crate holds the sum of the quantities |
| CrateLayout.LayoutMember | test/im-space-loot-crate-token.js:253-297 | a prize is in crate c's contents exactly when it lies in crate c's block of its kind |
| CrateLayout.LayoutEntry | test/im-space-loot-crate-token.js:256-272 | entry Offset(k) + t of crate c is token c * quantities[k] + t of kind k: blocks in kind order, ids in increasing order |
| CrateLayout.LayoutDistinct | test/im-space-loot-crate-token.js:253-297 | no prize appears twice in one crate |
| CrateLayout.LayoutDisjoint | test/im-space-loot-crate-token.js:253-297 | two crates share no prize |
| CrateLayout.ThreeTwoOneEntry | test/im-space-loot-crate-token.js:256-272 | the reference formula for quantities [3, 2, 1], entry j of crate i (a definition; `LayoutThreeTwoOne` proves the layout agrees with it) |
| CrateLayout.LayoutThreeTwoOne | test/im-space-loot-crate-token.js:256-272 | with quantities [3, 2, 1] crate i has 6 entries: (0, 3i+j) for j ≤ 2, (1, 2i+j-3) for 3 ≤ j ≤ 4, and (2, i) for j = 5 |
| LootCrate.RevealCheck | test/im-space-loot-crate-token.js:517-576 | a reveal passes exactly when the crate exists, the caller owns it or is approved for it or is an operator of its owner, `from` owns it, and `to` is not zero; the checks come in that order |
| LootCrate.RevealMirrorsTransfer | test/im-space-loot-crate-token.js:517-576 | the reveal checks are the crate ledger's transfer checks, with the reveal's own messages |
| LootCrate.AllocatedConsistent | test/im-space-loot-crate-token.js:230-251 | creating one more crate, with its prizes minted to the crate contract and its contents recorded, keeps the invariant |
| LootCrate.FillCrate | test/im-space-loot-crate-token.js:230-272 | filling crate c mints quantities[k] more ids of every kind k to the crate contract and records the crate's contents as the layout of crate c |
| LootCrate.EmptyCrate | test/im-space-loot-crate-token.js:578-626 | emptying a crate transfers each of its entries, in order, from the crate contract to `to`; every transfer succeeds |
| LootCrate.ReleaseEffect | test/im-space-loot-crate-token.js:578-626 | opening a live crate for `to` gives `to` every prize of that crate, changes no other prize's owner, and keeps the invariant once the crate is burnt and its record deleted |
| LootCrate.ReleaseCrate | test/im-space-loot-crate-token.js:578-626 | opening a live crate moves its recorded contents to `to`, burns the crate, deletes its record and keeps the invariant |
| LootCrate.ReleasedContents | test/im-space-loot-crate-token.js:600-626 | after a release, every prize of a released crate is owned by that crate's destination |
| LootCrate.RevealAll | test/im-space-loot-crate-token.js:759-790 | the books after a forced reveal: the ids are taken in order, and each crate still live at its turn is burnt and its contents moved to its holder (a definition; see `RevealAllEffect`) |
| LootCrate.RevealAllEffect | test/im-space-loot-crate-token.js:674-791 | a forced reveal of a list of ids opens exactly the listed crates that exist, each for the account that owned it, and keeps the invariant |
| LootCrate.RevealableIgnoresOrder | test/im-space-loot-crate-token.js:746-791 | which crates a forced reveal opens depends only on which ids are listed, not on their order or repetitions, so `[1, 1, 1]` acts as `[1]` |
| LootCrate.PrizeSupply | test/im-space-loot-crate-token.js:230-251 | prize kind k has total supply N * quantities[k] after N crates, however they were created; while no crate has been revealed the crate contract holds all of them |
| LootCrate.LootCrateToken.constructor | test/im-space-loot-crate-token.js:86-115 | a new crate token has no crates and nothing sold, its sale terms and prize list as given, and empty prize ledgers; the prize tokens listed must be distinct |
| LootCrate.LootCrateToken.PaymentDestination | test/im-space-loot-crate-token.js:386-410 | payments go to the recipient, or to the crate contract when the recipient is zero |
| LootCrate.LootCrateToken.AllocateOne | test/im-space-loot-crate-token.js:209-251 | one new crate takes the next crate id, and quantities[k] more ids of every kind k are minted to the crate contract |
| LootCrate.LootCrateToken.Allocate | test/im-space-loot-crate-token.js:209-251 | `count` new crates take the next `count` ids, and count * quantities[k] more ids of every kind k are minted to the crate contract |
| LootCrate.LootCrateToken.Reserve | test/im-space-loot-crate-token.js:188-228 | non-owners are refused and nothing changes; otherwise `to` receives `count` new crates with sequential ids, and `sales` is unchanged |
| LootCrate.LootCrateToken.Purchase | test/im-space-loot-crate-token.js:321-410 | refused, in this order and with nothing changed, above the purchase limit, beyond maxSales, above maxCost (equality allowed), and when the payment fails; otherwise the caller pays exactly count * price to the payment destination, no other balance moves, `sales` rises by `count`, and `to` receives `count` crates |
| LootCrate.LootCrateToken.SetMaxSales | test/im-space-loot-crate-token.js:337-353 | non-owners are refused; otherwise the sale cap is overwritten and nothing else changes |
| LootCrate.LootCrateToken.SetRecipient | test/im-space-loot-crate-token.js:386-410 | non-owners are refused; otherwise the payment recipient is overwritten and nothing else changes |
| LootCrate.LootCrateToken.TransferOwnership | test/im-space-loot-crate-token.js:775-776 | only the contract owner may hand the contract to a new, non-zero owner |
| LootCrate.LootCrateToken.TransferFrom | test/im-space-loot-crate-token.js:117 | crates follow the shared transfer rule; a crate's contents travel with it |
| LootCrate.LootCrateToken.Approve | test/im-space-loot-crate-token.js:117 | crates follow the shared approve rule |
| LootCrate.LootCrateToken.SetApprovalForAll | test/im-space-loot-crate-token.js:550-551 | crates follow the shared operator rule |
| LootCrate.LootCrateToken.RevealFrom | test/im-space-loot-crate-token.js:517-626 | the reveal checks decide the result; on success the crate no longer exists, its record is deleted, every prize of that crate is owned by `to`, and no other crate or prize changes; on failure nothing changes |
| LootCrate.LootCrateToken.ForceReveal | test/im-space-loot-crate-token.js:648-791 | non-owners are refused and nothing changes; otherwise every listed crate that exists is burnt and its prizes go to its own holder; other ids are skipped without error |
| LootCrate.LootCrateToken.SaleContentsLength | test/im-space-loot-crate-token.js:102 | the number of prize kinds, which is exactly the set of indices `saleContents` accepts |
| LootCrate.LootCrateToken.SaleContents | test/im-space-loot-crate-token.js:102-113 | entry i of the sale list is the i-th prize token and its per-crate quantity; an index past the list is refused |
| LootCrate.LootCrateToken.CrateContentsLength | test/im-space-loot-crate-token.js:276-290 | a live crate holds the sum of the quantities, and any other id holds nothing |
| LootCrate.LootCrateToken.CrateContents | test/im-space-loot-crate-token.js:253-297 | an entry can be read exactly when the crate is live and the index is below the sum of the quantities |
| LootCrate.LootCrateToken.CrateContentsEntry | test/im-space-loot-crate-token.js:437-482 | entry Offset(k) + t of live crate id is token id * quantities[k] + t of prize kind k, whichever calls created the crates |
| LootCrate.LootCrateToken.CrateContentsDistinct | test/im-space-loot-crate-token.js:253-297 | two different entries of a live crate name different prize tokens: the prize token or the token id differs |
| LootCrate.LootCrateToken.CrateContentsThreeTwoOne | test/im-space-loot-crate-token.js:253-297 | with quantities [3, 2, 1] every live crate's contents match the formula entry by entry, across separate `reserve` and `purchase` calls |

## Left out

- Token URIs (`tokenURI`, `setBaseURI`, `setTokenURI`): string building over a library `toString`; metadata only.
- ERC721Enumerable (`tokenByIndex`, `tokenOfOwnerByIndex`): its order after transfers comes from library code that is not part of this model. Ownership is a map, and balances are counted from it.
- The `safeTransferFrom` receiver callback: a call into another contract. `safeTransferFrom` is not modelled apart from `transferFrom`.
- Events such as `RoyaltyChanged`: they do not change state.
- Hashing: the block hash is a parameter (`blockHash: nat -> nat`). Block numbers and the current time are parameters too. The 256-block window of `blockhash` is not modelled.
- Integers are unbounded. The model has no uint256 overflow, and `MAX_UINT` allowances are not treated as infinite: every allowance is spent down.
- `renounceOwnership` of the crate contract is not modelled.
- The access token (`IMSpaceAccessToken`) adds no rules of its own beyond the shared ones.
- Prize tokens are modelled as ledgers that only the crate contract mints into and moves out of. Mints by other minters of a prize token, and the prize's own roles (the crate contract's minter role on it), are not modelled.
- LootCrate.LootCrateToken.constructor: prize contracts are identified by their position in the sale list, with one ledger per position, so the listed prize tokens are required to be distinct. A sale that lists one prize contract twice would draw both positions' ids from that contract's single counter; this model does not cover it.
- LootCrate.LootCrateToken.AllocateOne: the next crate id is the count of crates ever created (`Ledger.minted`), not `totalSupply`. The two differ only after a reveal has burnt a crate, and no test creates a crate after a reveal, so this is a modelling choice.
- The prize ledgers change on value copies: `FillCrate`, `EmptyCrate` and `ReleaseCrate` compute new prize ledgers that the crate contract then stores, instead of calling into separate prize contracts.
- LootCrate.LootCrateToken.Reserve: reserved crates do not count toward `sales` or `maxSales`. No test inspects `sales` after `reserve`, so this is a modelling choice.
- LootCrate.LootCrateToken.Purchase: the purchase-limit check comes before the supply check. No test separates the two, so this order is a modelling choice.
- Mission.MissionToken.SetStartingIndex: callable by anyone. No test calls it without a role, so it is not role-gated here. A MAX_SUPPLY of 0 gives a `DivisionByZero` failure, where the contract would revert on the modulo.
- Mission.MissionToken.SafeMint: the trigger uses "supply ≥ MAX_SUPPLY or time ≥ REVEAL_TIMESTAMP", checked after the mint and only while no block is committed. A committed block number of 0 cannot be told apart from "not committed", as in the contract's own encoding.
- Mission.MissionToken.EmergencySetStartingIndexBlock: it may overwrite an already committed block while the index is unset, as the test at test/im-space-mission-token.js:193-203 exercises.
- LootCrate.LootCrateToken.ForceReveal: the revealed crates are those in the list that exist when the call starts. Each crate's prizes go to the account that owned it when the call started. A list with repeated ids reveals each crate once.
