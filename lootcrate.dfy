/**
 * The loot-crate token: an ERC-721 token whose every token (a "crate")
 * holds, in escrow, a fixed bundle of prize tokens. Crates are created by
 * the contract owner (reserve) or sold for an ERC-20 payment (purchase);
 * each new crate mints the next block of ids of every prize kind into the
 * crate contract and records them as the crate's contents. Revealing a
 * crate hands its prizes out and destroys it.
 *
 * The prize tokens are modelled as ownership ledgers that only the crate
 * contract mints into.
 */
module LootCrate {
  import opened Common
  import opened Erc721
  import opened CrateLayout
  import Payment

  // ---------------------------------------------------------------------
  // The bookkeeping invariant

  /** A crate has recorded contents exactly while it exists, and they follow the layout. */
  ghost predicate Recorded(q: seq<nat>, crates: Ledger, contents: map<nat, seq<Prize>>) {
    && WellFormed(crates)
    && contents.Keys == crates.owners.Keys
    && (forall c :: c in contents ==> contents[c] == Layout(q, c))
  }

  /**
   * Every prize kind k has handed out q[k] ids for each of the n crates ever
   * created, and no prize was ever burnt.
   */
  ghost predicate Counted(q: seq<nat>, n: nat, prizes: seq<Ledger>) {
    && |prizes| == |q|
    && (forall k :: 0 <= k < |q| ==>
          prizes[k].minted == n * q[k] && WellFormed(prizes[k]) && NeverBurnt(prizes[k]))
  }

  /** Every prize of every live crate is held by the crate contract. */
  ghost predicate Escrowed(q: seq<nat>, self: Address, live: set<nat>, prizes: seq<Ledger>)
    requires |prizes| == |q|
  {
    forall c: nat, k: nat, t: nat :: c in live && InCrate(q, c, k, t) ==>
      t in prizes[k].owners && prizes[k].owners[t] == self
  }

  /** The crate contract's state is consistent. */
  ghost predicate Consistent(q: seq<nat>, self: Address, crates: Ledger, contents: map<nat, seq<Prize>>, prizes: seq<Ledger>)
  {
    && self != Zero
    && Recorded(q, crates, contents)
    && Counted(q, crates.minted, prizes)
    && Escrowed(q, self, crates.owners.Keys, prizes)
  }

  /** Every prize kind k after n more crates: n * q[k] more ids minted to the crate contract. */
  function MintedPrizes(prizes: seq<Ledger>, self: Address, q: seq<nat>, n: nat): seq<Ledger>
    requires |prizes| == |q|
  {
    seq(|q|, k requires 0 <= k < |q| => Minted(prizes[k], self, n * q[k]))
  }

  /** The prize ledgers after n crates are filled, one at a time. */
  function PrizesOneByOne(prizes: seq<Ledger>, self: Address, q: seq<nat>, n: nat): (r: seq<Ledger>)
    requires |prizes| == |q|
    ensures |r| == |q|
  {
    if n == 0 then prizes else MintedPrizes(PrizesOneByOne(prizes, self, q, n - 1), self, q, 1)
  }

  /** Each prize of ps, in order, moved to `to` in the ledger of its kind. */
  function MovedAll(prizes: seq<Ledger>, ps: seq<Prize>, to: Address): (r: seq<Ledger>)
    ensures |r| == |prizes|
  {
    if |ps| == 0 then prizes
    else
      var before := MovedAll(prizes, ps[..|ps| - 1], to);
      var p := ps[|ps| - 1];
      if p.kind < |before| then before[p.kind := Moved(before[p.kind], p.tokenId, to)] else before
  }

  /**
   * `after` is `before` with every prize of every crate c in dest handed to
   * dest[c] (a prize of kind k with id t belongs to crate t / q[k]); no
   * prize is created or destroyed and no other prize changes hands.
   */
  ghost predicate Released(q: seq<nat>, before: seq<Ledger>, after: seq<Ledger>, dest: map<nat, Address>)
  {
    && |before| == |q| && |after| == |q|
    && (forall k :: 0 <= k < |q| ==>
          after[k].minted == before[k].minted && after[k].owners.Keys == before[k].owners.Keys)
    && (forall k: nat, t: nat :: k < |q| && t in before[k].owners ==>
          after[k].owners[t] == if q[k] > 0 && t / q[k] in dest then dest[t / q[k]] else before[k].owners[t])
  }

  /** The crates among ids that exist. */
  function Revealable(crates: Ledger, ids: seq<nat>): set<nat> {
    set c | c in ids && c in crates.owners
  }

  /** The owners of the crates in s. */
  function Restrict(owners: map<nat, Address>, s: set<nat>): map<nat, Address> {
    map c | c in owners && c in s :: owners[c]
  }

  /**
   * The checks revealFrom(from, to, id) makes, sent by `caller`: the caller
   * must own the crate or be approved for it or be an operator of its owner;
   * then `from` must be the owner; then `to` must not be the zero address.
   */
  function RevealCheck(crates: Ledger, caller: Address, from: Address, to: Address, id: nat): (r: Outcome)
    ensures r == Pass <==> id in crates.owners && IsApprovedOrOwner(crates, caller, id)
                           && crates.owners[id] == from && to != Zero
  {
    if id !in crates.owners then Fail(NonexistentToken)
    else if !IsApprovedOrOwner(crates, caller, id) then Fail(RevealNotOwnerNorApproved)
    else if crates.owners[id] != from then Fail(RevealFromIncorrectOwner)
    else if to == Zero then Fail(RevealToZero)
    else Pass
  }

  /** The reveal's own wording of a transfer error. */
  function RevealError(e: Error): Error {
    match e
    case NotOwnerNorApproved => RevealNotOwnerNorApproved
    case IncorrectOwner => RevealFromIncorrectOwner
    case TransferToZero => RevealToZero
    case _ => e
  }

  // ---------------------------------------------------------------------
  // Lemmas about the invariant

  /** One more crate takes n more ids. */
  lemma MulSucc(c: nat, n: nat)
    ensures (c + 1) * n == c * n + n
  {
  }

  /** Integer division by n of a number below m * n is below m. */
  lemma DivBelow(t: nat, n: nat, m: nat)
    requires n > 0 && t < m * n
    ensures t / n < m
  {
    var d := t / n;
    assert d * n <= t;
  }

  /** The reveal rule is the transfer rule of the crate ledger, with its own messages. */
  lemma RevealMirrorsTransfer(crates: Ledger, caller: Address, from: Address, to: Address, id: nat)
    ensures RevealCheck(crates, caller, from, to, id) ==
              match Transfer(crates, caller, from, to, id)
              case Ok(_) => Pass
              case Err(e) => Fail(RevealError(e))
  {
  }

  /** One more crate's worth of one prize kind, minted to the crate contract. */
  lemma MintedKind(l: Ledger, self: Address, c: nat, n: nat)
    requires self != Zero && WellFormed(l) && NeverBurnt(l) && l.minted == c * n
    ensures var l' := Minted(l, self, n);
      && l'.minted == (c + 1) * n && WellFormed(l') && NeverBurnt(l')
      && (forall t :: c * n <= t < c * n + n ==> t in l'.owners && l'.owners[t] == self)
      && (forall t :: t in l.owners ==> t in l'.owners && l'.owners[t] == l.owners[t])
  {
    MintedOwners(l, self, n);
    MintedFromSupply(l, self, n);
    MulSucc(c, n);
  }

  /** Creating one more crate keeps every prize counter in step. */
  lemma AllocatedCounted(q: seq<nat>, n: nat, prizes: seq<Ledger>, self: Address)
    requires self != Zero && Counted(q, n, prizes)
    ensures Counted(q, n + 1, MintedPrizes(prizes, self, q, 1))
  {
    var prizes' := MintedPrizes(prizes, self, q, 1);
    forall k | 0 <= k < |q|
      ensures prizes'[k].minted == (n + 1) * q[k] && WellFormed(prizes'[k]) && NeverBurnt(prizes'[k])
    {
      assert prizes'[k] == Minted(prizes[k], self, q[k]);
      MintedKind(prizes[k], self, n, q[k]);
    }
  }

  /** The prizes minted for a new crate n are held by the crate contract, and so are those of the older crates. */
  lemma AllocatedEscrow(q: seq<nat>, self: Address, live: set<nat>, n: nat, prizes: seq<Ledger>)
    requires self != Zero && Counted(q, n, prizes) && Escrowed(q, self, live, prizes)
    ensures Escrowed(q, self, live + {n}, MintedPrizes(prizes, self, q, 1))
  {
    var prizes' := MintedPrizes(prizes, self, q, 1);
    forall c: nat, k: nat, t: nat | c in live + {n} && InCrate(q, c, k, t)
      ensures t in prizes'[k].owners && prizes'[k].owners[t] == self
    {
      assert prizes'[k] == Minted(prizes[k], self, q[k]);
      MintedKind(prizes[k], self, n, q[k]);
      if c != n {
        assert t in prizes[k].owners && prizes[k].owners[t] == self;
      }
    }
  }

  /** The new crate takes the next id and its contents are recorded. */
  lemma AllocatedRecorded(q: seq<nat>, crates: Ledger, contents: map<nat, seq<Prize>>, to: Address)
    requires Recorded(q, crates, contents) && to != Zero
    ensures Minted(crates, to, 1).owners.Keys == crates.owners.Keys + {crates.minted}
    ensures Recorded(q, Minted(crates, to, 1), contents[crates.minted := Layout(q, crates.minted)])
  {
    var c := crates.minted;
    MintedOwners(crates, to, 1);
    assert Range(c, 1) == {c} by {
      assert InRange(c, 1, c);
    }
  }

  /** Creating one more crate keeps the bookkeeping consistent. */
  lemma AllocatedConsistent(q: seq<nat>, self: Address, crates: Ledger, contents: map<nat, seq<Prize>>,
                            prizes: seq<Ledger>, to: Address)
    requires Consistent(q, self, crates, contents, prizes) && to != Zero
    ensures Consistent(q, self, Minted(crates, to, 1), contents[crates.minted := Layout(q, crates.minted)],
                       MintedPrizes(prizes, self, q, 1))
  {
    var c := crates.minted;
    var crates' := Minted(crates, to, 1);
    var prizes' := MintedPrizes(prizes, self, q, 1);
    AllocatedRecorded(q, crates, contents, to);
    assert crates'.minted == c + 1;
    AllocatedCounted(q, c, prizes, self);
    assert Counted(q, crates'.minted, prizes');
    AllocatedEscrow(q, self, crates.owners.Keys, c, prizes);
    assert Escrowed(q, self, crates'.owners.Keys, prizes');
  }

  /** A release keeps every prize counter in step, provided nothing is handed to the zero address. */
  lemma ReleasedCounted(q: seq<nat>, n: nat, before: seq<Ledger>, after: seq<Ledger>, dest: map<nat, Address>)
    requires Counted(q, n, before) && Released(q, before, after, dest)
    requires forall c :: c in dest ==> dest[c] != Zero
    ensures Counted(q, n, after)
  {
    forall k | 0 <= k < |q|
      ensures WellFormed(after[k]) && NeverBurnt(after[k])
    {
      forall t | t in after[k].owners
        ensures t < after[k].minted && after[k].owners[t] != Zero
      {
        assert t in before[k].owners;
      }
    }
  }

  /** After crate c's prizes are handed out, the prizes of the other live crates are still in escrow. */
  lemma ReleasedEscrow(q: seq<nat>, self: Address, live: set<nat>, before: seq<Ledger>, after: seq<Ledger>,
                       c: nat, to: Address)
    requires |before| == |q| && Escrowed(q, self, live, before) && Released(q, before, after, map[c := to])
    ensures Escrowed(q, self, live - {c}, after)
  {
    forall d: nat, k: nat, t: nat | d in live - {c} && InCrate(q, d, k, t)
      ensures t in after[k].owners && after[k].owners[t] == self
    {
      InCrateByDivision(q, d, k, t);
    }
  }

  /** Burning a live crate and deleting its record keeps the records in step with the crates. */
  lemma BurnedRecorded(q: seq<nat>, crates: Ledger, contents: map<nat, seq<Prize>>, c: nat)
    requires Recorded(q, crates, contents) && c in crates.owners
    ensures Burned(crates, {c}).owners.Keys == crates.owners.Keys - {c}
    ensures Burned(crates, {c}).minted == crates.minted
    ensures Recorded(q, Burned(crates, {c}), contents - {c})
  {
    BurnedEffect(crates, c);
    assert Burned(crates, {c}).owners.Keys == crates.owners.Keys - {c};
  }

  /** Handing out the prizes of one live crate and burning it keeps the bookkeeping consistent. */
  lemma ReleasedConsistent(q: seq<nat>, self: Address, crates: Ledger, contents: map<nat, seq<Prize>>,
                           prizes: seq<Ledger>, prizes': seq<Ledger>, c: nat, to: Address)
    requires Consistent(q, self, crates, contents, prizes) && c in crates.owners && to != Zero
    requires Released(q, prizes, prizes', map[c := to])
    ensures Consistent(q, self, Burned(crates, {c}), contents - {c}, prizes')
  {
    BurnedRecorded(q, crates, contents, c);
    ReleasedCounted(q, crates.minted, prizes, prizes', map[c := to]);
    ReleasedEscrow(q, self, crates.owners.Keys, prizes, prizes', c, to);
  }

  /** Minting nothing changes nothing. */
  lemma MintedPrizesNone(prizes: seq<Ledger>, self: Address, q: seq<nat>)
    requires |prizes| == |q|
    ensures MintedPrizes(prizes, self, q, 0) == prizes
  {
    forall k | 0 <= k < |q|
      ensures MintedPrizes(prizes, self, q, 0)[k] == prizes[k]
    {
      assert Minted(prizes[k], self, 0).owners == prizes[k].owners;
    }
  }

  /** One prize kind: minting for n crates and then for one more is minting for n + 1 crates. */
  lemma MintedKindTwice(l: Ledger, self: Address, n: nat, m: nat)
    ensures Minted(Minted(l, self, n * m), self, 1 * m) == Minted(l, self, (n + 1) * m)
  {
    var a := n * m;
    assert 1 * m == m;
    MulSucc(n, m);
    assert (n + 1) * m == a + m;
    MintedTwice(l, self, a, m);
  }

  /** Minting for n crates and then for one more is minting for n + 1 crates. */
  lemma MintedPrizesTwice(prizes: seq<Ledger>, self: Address, q: seq<nat>, n: nat)
    requires |prizes| == |q|
    ensures MintedPrizes(MintedPrizes(prizes, self, q, n), self, q, 1) == MintedPrizes(prizes, self, q, n + 1)
  {
    var once := MintedPrizes(prizes, self, q, n);
    forall k | 0 <= k < |q|
      ensures MintedPrizes(once, self, q, 1)[k] == MintedPrizes(prizes, self, q, n + 1)[k]
    {
      MintedKindTwice(prizes[k], self, n, q[k]);
    }
  }

  /** Filling crates one at a time mints quantities[k] prizes of kind k per crate. */
  lemma {:induction false} PrizesOneByOneBatch(prizes: seq<Ledger>, self: Address, q: seq<nat>, n: nat)
    requires |prizes| == |q|
    ensures PrizesOneByOne(prizes, self, q, n) == MintedPrizes(prizes, self, q, n)
  {
    if n == 0 {
      MintedPrizesNone(prizes, self, q);
    } else {
      PrizesOneByOneBatch(prizes, self, q, n - 1);
      MintedPrizesTwice(prizes, self, q, n - 1);
    }
  }

  /** The prizes of a live crate are in the ledgers of their kinds, held by the crate contract. */
  lemma EscrowedContents(q: seq<nat>, self: Address, live: set<nat>, prizes: seq<Ledger>, c: nat)
    requires |prizes| == |q| && Escrowed(q, self, live, prizes) && c in live
    ensures forall p :: p in Layout(q, c) ==>
              p.kind < |q| && p.tokenId in prizes[p.kind].owners && prizes[p.kind].owners[p.tokenId] == self
  {
    forall p | p in Layout(q, c)
      ensures p.kind < |q| && p.tokenId in prizes[p.kind].owners && prizes[p.kind].owners[p.tokenId] == self
    {
      LayoutMember(q, c, p);
    }
  }

  /** Moving prizes that exist neither creates nor destroys any prize. */
  lemma {:induction false} MovedAllKeeps(prizes: seq<Ledger>, ps: seq<Prize>, to: Address)
    requires forall p :: p in ps ==> p.kind < |prizes| && p.tokenId in prizes[p.kind].owners
    ensures forall k :: 0 <= k < |prizes| ==>
              MovedAll(prizes, ps, to)[k].minted == prizes[k].minted
              && MovedAll(prizes, ps, to)[k].owners.Keys == prizes[k].owners.Keys
  {
    if |ps| > 0 {
      var ps' := ps[..|ps| - 1];
      assert forall e :: e in ps' ==> e in ps;
      assert ps[|ps| - 1] in ps;
      MovedAllKeeps(prizes, ps', to);
    }
  }

  /** After the moves, prize t of kind k belongs to `to` when it was listed, and to its old owner otherwise. */
  lemma {:induction false} MovedAllOwner(prizes: seq<Ledger>, ps: seq<Prize>, to: Address, k: nat, t: nat)
    requires forall p :: p in ps ==> p.kind < |prizes| && p.tokenId in prizes[p.kind].owners
    requires k < |prizes| && t in prizes[k].owners
    ensures t in MovedAll(prizes, ps, to)[k].owners
    ensures MovedAll(prizes, ps, to)[k].owners[t] == if Prize(k, t) in ps then to else prizes[k].owners[t]
  {
    if |ps| > 0 {
      var ps' := ps[..|ps| - 1];
      var p := ps[|ps| - 1];
      assert ps == ps' + [p];
      assert forall e :: e in ps' ==> e in ps;
      MovedAllOwner(prizes, ps', to, k, t);
      assert Prize(k, t) in ps <==> Prize(k, t) in ps' || Prize(k, t) == p;
    }
  }

  /**
   * Moving prizes that exist: each one listed now belongs to `to`, every
   * other prize keeps its owner, and no prize appears or disappears.
   */
  lemma MovedAllEffect(prizes: seq<Ledger>, ps: seq<Prize>, to: Address)
    requires forall p :: p in ps ==> p.kind < |prizes| && p.tokenId in prizes[p.kind].owners
    ensures var r := MovedAll(prizes, ps, to);
      && (forall k :: 0 <= k < |prizes| ==>
            r[k].minted == prizes[k].minted && r[k].owners.Keys == prizes[k].owners.Keys)
      && (forall k: nat, t: nat :: k < |prizes| && t in prizes[k].owners ==>
            r[k].owners[t] == if Prize(k, t) in ps then to else prizes[k].owners[t])
  {
    MovedAllKeeps(prizes, ps, to);
    forall k: nat, t: nat | k < |prizes| && t in prizes[k].owners
      ensures MovedAll(prizes, ps, to)[k].owners[t] == if Prize(k, t) in ps then to else prizes[k].owners[t]
    {
      MovedAllOwner(prizes, ps, to, k, t);
    }
  }

  /**
   * The next entry of a crate being emptied is still held by the crate
   * contract, so the crate contract can transfer it; doing so extends the
   * moves made so far by that entry.
   */
  lemma MoveNext(q: seq<nat>, self: Address, prizes: seq<Ledger>, c: nat, i: nat, to: Address)
    requires |prizes| == |q| && self != Zero && to != Zero && i < |Layout(q, c)|
    requires forall p :: p in Layout(q, c) ==>
               p.kind < |q| && p.tokenId in prizes[p.kind].owners && prizes[p.kind].owners[p.tokenId] == self
    ensures var entries := Layout(q, c);
      var p := entries[i];
      var before := MovedAll(prizes, entries[..i], to);
      && p.kind < |before|
      && Transfer(before[p.kind], self, self, to, p.tokenId).Ok?
      && MovedAll(prizes, entries[..i + 1], to) == before[p.kind := Transfer(before[p.kind], self, self, to, p.tokenId).value]
  {
    var entries := Layout(q, c);
    var p := entries[i];
    var done := entries[..i];
    assert p in entries;
    forall j | 0 <= j < i
      ensures entries[j] != p
    {
      LayoutDistinct(q, c, j, i);
    }
    assert p !in done;
    assert forall e :: e in done ==> e in entries;
    var before := MovedAll(prizes, done, to);
    MovedAllKeeps(prizes, done, to);
    MovedAllOwner(prizes, done, to, p.kind, p.tokenId);
    assert p.tokenId in before[p.kind].owners && before[p.kind].owners[p.tokenId] == self;
    var moved := Transfer(before[p.kind], self, self, to, p.tokenId);
    assert moved == Ok(Moved(before[p.kind], p.tokenId, to));
    var next := entries[..i + 1];
    assert next[..i] == done && next[i] == p;
  }

  /** Moving the contents of crate c to `to` is releasing crate c to `to`. */
  lemma MovedCrateReleased(q: seq<nat>, prizes: seq<Ledger>, c: nat, to: Address)
    requires |prizes| == |q|
    requires forall p :: p in Layout(q, c) ==> p.kind < |q| && p.tokenId in prizes[p.kind].owners
    ensures Released(q, prizes, MovedAll(prizes, Layout(q, c), to), map[c := to])
  {
    var after := MovedAll(prizes, Layout(q, c), to);
    MovedAllEffect(prizes, Layout(q, c), to);
    forall k: nat, t: nat | k < |q| && t in prizes[k].owners
      ensures after[k].owners[t] == if q[k] > 0 && t / q[k] in map[c := to] then to else prizes[k].owners[t]
    {
      LayoutMember(q, c, Prize(k, t));
      InCrateByDivision(q, c, k, t);
    }
  }

  /** Nothing released yet: the prizes are as they were. */
  lemma ReleasedNothing(q: seq<nat>, prizes: seq<Ledger>)
    requires |prizes| == |q|
    ensures Released(q, prizes, prizes, map[])
  {
  }

  /** Releasing one more crate extends a release. */
  lemma ReleasedStep(q: seq<nat>, p0: seq<Ledger>, p1: seq<Ledger>, p2: seq<Ledger>,
                     dest: map<nat, Address>, c: nat, to: Address)
    requires Released(q, p0, p1, dest) && Released(q, p1, p2, map[c := to]) && c !in dest
    ensures Released(q, p0, p2, dest[c := to])
  {
    forall k: nat, t: nat | k < |q| && t in p0[k].owners
      ensures p2[k].owners[t] == if q[k] > 0 && t / q[k] in dest[c := to] then dest[c := to][t / q[k]] else p0[k].owners[t]
    {
      assert t in p1[k].owners;
    }
  }

  /**
   * What a release means for one crate in it: every prize of that crate is
   * now owned by the crate's destination.
   */
  lemma ReleasedContents(q: seq<nat>, before: seq<Ledger>, after: seq<Ledger>, dest: map<nat, Address>,
                         c: nat, k: nat, t: nat)
    requires Released(q, before, after, dest)
    requires c in dest && InCrate(q, c, k, t) && t in before[k].owners
    ensures t in after[k].owners && after[k].owners[t] == dest[c]
  {
    InCrateByDivision(q, c, k, t);
  }

  /** Burning in two rounds is burning once. */
  lemma BurnedTwice(l: Ledger, a: set<nat>, b: set<nat>)
    ensures Burned(Burned(l, a), b) == Burned(l, a + b)
  {
    assert Burned(Burned(l, a), b).owners == Burned(l, a + b).owners;
    assert Burned(Burned(l, a), b).approvals == Burned(l, a + b).approvals;
  }

  /** Looking at one more listed id adds that crate when it exists. */
  lemma RevealableStep(crates: Ledger, ids: seq<nat>, i: nat)
    requires i < |ids|
    ensures Revealable(crates, ids[..i + 1]) ==
              Revealable(crates, ids[..i]) + (if ids[i] in crates.owners then {ids[i]} else {})
  {
    assert ids[..i + 1] == ids[..i] + [ids[i]];
  }

  /** Adding a crate to a restriction adds its owner. */
  lemma RestrictStep(owners: map<nat, Address>, s: set<nat>, c: nat)
    requires c in owners
    ensures Restrict(owners, s)[c := owners[c]] == Restrict(owners, s + {c})
  {
  }

  /**
   * Opening live crate c for `to` moves its recorded contents to `to`,
   * which is releasing crate c to `to`, and, with the crate burnt and its
   * record deleted, keeps the bookkeeping consistent.
   */
  lemma ReleaseEffect(q: seq<nat>, self: Address, crates: Ledger, contents: map<nat, seq<Prize>>,
                      prizes: seq<Ledger>, c: nat, to: Address)
    requires Consistent(q, self, crates, contents, prizes) && c in crates.owners && to != Zero
    ensures c in contents
    ensures Released(q, prizes, MovedAll(prizes, contents[c], to), map[c := to])
    ensures Consistent(q, self, Burned(crates, {c}), contents - {c}, MovedAll(prizes, contents[c], to))
  {
    EscrowedContents(q, self, crates.owners.Keys, prizes, c);
    MovedCrateReleased(q, prizes, c, to);
    ReleasedConsistent(q, self, crates, contents, prizes, MovedAll(prizes, contents[c], to), c, to);
  }

  /**
   * The books after a forced reveal of ids: each listed crate that still
   * exists when its turn comes is opened for its owner.
   */
  function RevealAll(crates: Ledger, contents: map<nat, seq<Prize>>, prizes: seq<Ledger>, ids: seq<nat>)
    : (Ledger, map<nat, seq<Prize>>, seq<Ledger>)
  {
    if |ids| == 0 then (crates, contents, prizes)
    else
      var (cs, ct, ps) := RevealAll(crates, contents, prizes, ids[..|ids| - 1]);
      var c := ids[|ids| - 1];
      if c in cs.owners && c in ct then (Burned(cs, {c}), ct - {c}, MovedAll(ps, ct[c], cs.owners[c]))
      else (cs, ct, ps)
  }

  /**
   * (cs, ct, ps) are the books after the crates in `revealed` have been
   * opened, each for the account that owned it: they are consistent, those
   * crates are burnt, their records deleted and their prizes released.
   */
  ghost predicate RevealedBooks(q: seq<nat>, self: Address, crates: Ledger, contents: map<nat, seq<Prize>>,
                                prizes: seq<Ledger>, revealed: set<nat>,
                                cs: Ledger, ct: map<nat, seq<Prize>>, ps: seq<Ledger>)
  {
    && Consistent(q, self, cs, ct, ps)
    && cs == Burned(crates, revealed)
    && ct == contents - revealed
    && Released(q, prizes, ps, Restrict(crates.owners, revealed))
  }

  /** Considering one more listed id keeps the books as described, with that crate opened if it was still live. */
  lemma RevealOneMore(q: seq<nat>, self: Address, crates: Ledger, contents: map<nat, seq<Prize>>,
                      prizes: seq<Ledger>, done: set<nat>,
                      cs: Ledger, ct: map<nat, seq<Prize>>, ps: seq<Ledger>, c: nat)
    requires RevealedBooks(q, self, crates, contents, prizes, done, cs, ct, ps)
    ensures c in cs.owners ==> c in ct
    ensures c in cs.owners ==>
              RevealedBooks(q, self, crates, contents, prizes, done + {c},
                            Burned(cs, {c}), ct - {c}, MovedAll(ps, ct[c], cs.owners[c]))
    ensures c !in cs.owners ==> done + (if c in crates.owners then {c} else {}) == done
  {
    if c in cs.owners {
      var holder := cs.owners[c];
      assert c in crates.owners && c !in done && holder == crates.owners[c];
      ReleaseEffect(q, self, cs, ct, ps, c, holder);
      BurnedTwice(crates, done, {c});
      ReleasedStep(q, prizes, ps, MovedAll(ps, ct[c], holder), Restrict(crates.owners, done), c, holder);
      RestrictStep(crates.owners, done, c);
      assert ct - {c} == contents - (done + {c});
    } else {
      assert c in crates.owners ==> c in done;
    }
  }

  /**
   * A forced reveal opens exactly the listed crates that exist, each for
   * the account that owned it, and keeps the bookkeeping consistent.
   */
  lemma {:induction false} RevealAllEffect(q: seq<nat>, self: Address, crates: Ledger, contents: map<nat, seq<Prize>>,
                                           prizes: seq<Ledger>, ids: seq<nat>)
    requires Consistent(q, self, crates, contents, prizes)
    ensures var (cs, ct, ps) := RevealAll(crates, contents, prizes, ids);
      RevealedBooks(q, self, crates, contents, prizes, Revealable(crates, ids), cs, ct, ps)
  {
    if |ids| == 0 {
      assert Revealable(crates, ids) == {};
      assert crates.owners == Burned(crates, {}).owners;
      assert crates.approvals == Burned(crates, {}).approvals;
      assert contents == contents - {};
      assert Restrict(crates.owners, {}) == map[];
      ReleasedNothing(q, prizes);
    } else {
      var n := |ids| - 1;
      var (cs, ct, ps) := RevealAll(crates, contents, prizes, ids[..n]);
      RevealAllEffect(q, self, crates, contents, prizes, ids[..n]);
      RevealableStep(crates, ids, n);
      assert ids[..n + 1] == ids;
      RevealOneMore(q, self, crates, contents, prizes, Revealable(crates, ids[..n]), cs, ct, ps, ids[n]);
    }
  }

  /**
   * Which crates a forced reveal opens depends only on which ids are
   * listed: neither their order nor repetitions matter.
   */
  lemma RevealableIgnoresOrder(crates: Ledger, ids: seq<nat>, ids': seq<nat>)
    requires forall c :: c in ids <==> c in ids'
    ensures Revealable(crates, ids) == Revealable(crates, ids')
  {
    forall c | c in Revealable(crates, ids)
      ensures c in Revealable(crates, ids')
    {
      assert c in ids;
    }
    forall c | c in Revealable(crates, ids')
      ensures c in Revealable(crates, ids)
    {
      assert c in ids';
    }
  }

  /** While no crate has been revealed, every prize token that exists belongs to some live crate. */
  lemma EscrowedWhileSealed(q: seq<nat>, self: Address, crates: Ledger, contents: map<nat, seq<Prize>>,
                            prizes: seq<Ledger>, k: nat, t: nat)
    requires Consistent(q, self, crates, contents, prizes) && NeverBurnt(crates)
    requires k < |q| && t in prizes[k].owners
    ensures prizes[k].owners[t] == self
  {
    var n := q[k];
    assert t < crates.minted * n;
    DivBelow(t, n, crates.minted);
    var c := t / n;
    InCrateByDivision(q, c, k, t);
    assert InRange(0, crates.minted, c);
    assert c in crates.owners;
  }

  /**
   * The prize totals: each prize kind k has total supply N * q[k], where N
   * is the number of crates ever created; and while no crate has been
   * revealed, the crate contract holds every one of them.
   */
  lemma PrizeSupply(q: seq<nat>, self: Address, crates: Ledger, contents: map<nat, seq<Prize>>,
                    prizes: seq<Ledger>, k: nat)
    requires Consistent(q, self, crates, contents, prizes) && k < |q|
    ensures TotalSupply(prizes[k]) == crates.minted * q[k]
    ensures NeverBurnt(crates) ==> BalanceOf(prizes[k], self) == crates.minted * q[k]
  {
    var l := prizes[k];
    SupplyOfNeverBurnt(l);
    if NeverBurnt(crates) {
      forall t | t in l.owners
        ensures l.owners[t] == self
      {
        EscrowedWhileSealed(q, self, crates, contents, prizes, k, t);
      }
      assert OwnedBy(l, self) == l.owners.Keys;
    }
  }

  // ---------------------------------------------------------------------
  // The contract

  /**
   * Fill crate c: for every prize kind k in order, the next q[k] ids of
   * kind k are minted to the crate contract and appended to the crate's
   * contents.
   */
  method FillCrate(prizes: seq<Ledger>, self: Address, q: seq<nat>, c: nat) returns (ledgers: seq<Ledger>, entries: seq<Prize>)
    requires |prizes| == |q|
    requires forall k :: 0 <= k < |q| ==> prizes[k].minted == c * q[k]
    ensures ledgers == MintedPrizes(prizes, self, q, 1)
    ensures entries == Layout(q, c)
  {
    ledgers := prizes;
    entries := [];
    var k := 0;
    while k < |q|
      invariant 0 <= k <= |q| && |ledgers| == |q|
      invariant entries == Layout(q[..k], c)
      invariant forall j :: 0 <= j < k ==> ledgers[j] == Minted(prizes[j], self, q[j])
      invariant forall j :: k <= j < |q| ==> ledgers[j] == prizes[j]
    {
      var n := q[k];
      var first := ledgers[k].minted;
      ledgers := ledgers[k := Minted(ledgers[k], self, n)];
      var block := seq(n, t requires 0 <= t < n => Prize(k, first + t));
      assert block == Block(k, c, n);
      entries := entries + block;
      assert q[..k + 1][..k] == q[..k];
      k := k + 1;
    }
    assert q[..k] == q;
  }

  /**
   * Empty crate c, whose contents are `entries`: every entry, in order, is
   * transferred by the crate contract from itself to `to` in the ledger of
   * its kind.
   */
  method EmptyCrate(prizes: seq<Ledger>, self: Address, ghost q: seq<nat>, ghost c: nat, entries: seq<Prize>, to: Address)
    returns (ledgers: seq<Ledger>)
    requires self != Zero && to != Zero && |q| == |prizes| && entries == Layout(q, c)
    requires forall p :: p in entries ==>
               p.kind < |prizes| && p.tokenId in prizes[p.kind].owners && prizes[p.kind].owners[p.tokenId] == self
    ensures ledgers == MovedAll(prizes, entries, to)
  {
    ledgers := prizes;
    var i := 0;
    while i < |entries|
      invariant 0 <= i <= |entries|
      invariant ledgers == MovedAll(prizes, entries[..i], to)
    {
      var p := entries[i];
      MoveNext(q, self, prizes, c, i, to);
      var moved := Transfer(ledgers[p.kind], self, self, to, p.tokenId);
      ledgers := ledgers[p.kind := moved.value];
      i := i + 1;
    }
    assert entries[..i] == entries;
  }

  /**
   * Open live crate c for `to`: every prize in its contents is transferred,
   * in order, from the crate contract to `to`; then the crate is burnt and
   * its contents record deleted.
   */
  method ReleaseCrate(q: seq<nat>, self: Address, crates: Ledger, contents: map<nat, seq<Prize>>,
                      prizes: seq<Ledger>, c: nat, to: Address)
    returns (crates': Ledger, contents': map<nat, seq<Prize>>, prizes': seq<Ledger>)
    requires Consistent(q, self, crates, contents, prizes) && c in crates.owners && to != Zero
    ensures Consistent(q, self, crates', contents', prizes')
    ensures crates' == Burned(crates, {c}) && contents' == contents - {c}
    ensures c in contents && prizes' == MovedAll(prizes, contents[c], to)
    ensures Released(q, prizes, prizes', map[c := to])
  {
    EscrowedContents(q, self, crates.owners.Keys, prizes, c);
    prizes' := EmptyCrate(prizes, self, q, c, contents[c], to);
    ReleaseEffect(q, self, crates, contents, prizes, c, to);
    crates', contents' := Burned(crates, {c}), contents - {c};
  }

  class LootCrateToken {
    /** The crate contract's own address, which holds the escrowed prizes. */
    const address: Address
    /** The prize token of every prize kind, and how many of it go into one crate. */
    const prizeTokens: seq<Address>
    const quantities: seq<nat>
    /** The contract owner (Ownable). */
    var owner: Address
    var crates: Ledger
    /** contents[c]: the prizes in crate c, in order. */
    var contents: map<nat, seq<Prize>>
    /** The ledger of every prize kind. */
    var prizes: seq<Ledger>
    var maxSales: nat
    var sales: nat
    var purchaseLimit: nat
    var price: nat
    /** Where payments go; the zero address means the crate contract itself. */
    var recipient: Address

    ghost predicate Valid()
      reads this
    {
      && |prizeTokens| == |quantities|
      && (forall i, j :: 0 <= i < j < |prizeTokens| ==> prizeTokens[i] != prizeTokens[j])
      && Consistent(quantities, address, crates, contents, prizes)
    }

    /** The account a purchase pays. */
    function PaymentDestination(): (a: Address)
      reads this
      requires Valid()
      ensures a != Zero
      ensures recipient != Zero ==> a == recipient
      ensures recipient == Zero ==> a == address
    {
      if recipient == Zero then address else recipient
    }

    /** Deployment with the sale terms and the prize list; no crate exists and nothing has been sold. */
    constructor (address: Address, deployer: Address, maxSales: nat, purchaseLimit: nat, price: nat,
                 recipient: Address, prizeTokens: seq<Address>, quantities: seq<nat>)
      requires address != Zero && |prizeTokens| == |quantities|
      requires forall i, j :: 0 <= i < j < |prizeTokens| ==> prizeTokens[i] != prizeTokens[j]
      ensures Valid()
      ensures this.address == address && this.prizeTokens == prizeTokens && this.quantities == quantities
      ensures owner == deployer && this.maxSales == maxSales && this.purchaseLimit == purchaseLimit
      ensures this.price == price && this.recipient == recipient && sales == 0
      ensures crates == Empty && contents == map[]
      ensures |prizes| == |quantities| && forall k :: 0 <= k < |quantities| ==> prizes[k] == Empty
    {
      this.address := address;
      this.prizeTokens := prizeTokens;
      this.quantities := quantities;
      owner := deployer;
      crates := Empty;
      contents := map[];
      prizes := seq(|quantities|, k => Empty);
      this.maxSales := maxSales;
      sales := 0;
      this.purchaseLimit := purchaseLimit;
      this.price := price;
      this.recipient := recipient;
      new;
      assert Ids(0) == {};
    }

    /**
     * Create one crate for `to`: it takes the next crate id, and for every
     * prize kind in order the next quantity-many prize ids are minted to the
     * crate contract and appended to the crate's contents.
     */
    method AllocateOne(to: Address)
      requires Valid() && to != Zero
      modifies this
      ensures Valid()
      ensures crates == Minted(old(crates), to, 1)
      ensures prizes == MintedPrizes(old(prizes), address, quantities, 1)
      ensures owner == old(owner) && recipient == old(recipient)
      ensures maxSales == old(maxSales) && sales == old(sales)
      ensures purchaseLimit == old(purchaseLimit) && price == old(price)
    {
      var c := crates.minted;
      ghost var crates0, contents0, prizes0 := crates, contents, prizes;
      var ledgers, entries := FillCrate(prizes, address, quantities, c);
      crates, contents, prizes := Minted(crates, to, 1), contents[c := entries], ledgers;
      AllocatedConsistent(quantities, address, crates0, contents0, prizes0, to);
    }

    /** Create `count` crates for `to`, one after another. */
    method Allocate(to: Address, count: nat)
      requires Valid() && (count > 0 ==> to != Zero)
      modifies this
      ensures Valid()
      ensures crates == Minted(old(crates), to, count)
      ensures prizes == MintedPrizes(old(prizes), address, quantities, count)
      ensures owner == old(owner) && recipient == old(recipient)
      ensures maxSales == old(maxSales) && sales == old(sales)
      ensures purchaseLimit == old(purchaseLimit) && price == old(price)
    {
      ghost var crates0, prizes0 := crates, prizes;
      var i := 0;
      while i < count
        invariant 0 <= i <= count
        invariant Valid()
        invariant crates == MintedOneByOne(crates0, to, i)
        invariant prizes == PrizesOneByOne(prizes0, address, quantities, i)
        invariant owner == old(owner) && recipient == old(recipient)
        invariant maxSales == old(maxSales) && sales == old(sales)
        invariant purchaseLimit == old(purchaseLimit) && price == old(price)
      {
        AllocateOne(to);
        i := i + 1;
      }
      MintedOneByOneBatch(crates0, to, count);
      PrizesOneByOneBatch(prizes0, address, quantities, count);
    }

    /**
     * reserve(to, count): the contract owner creates `count` crates for `to`
     * without payment. Reserved crates do not count as sales.
     */
    method Reserve(caller: Address, to: Address, count: nat) returns (r: Outcome)
      requires Valid()
      modifies this
      ensures Valid()
      ensures r == (if caller != old(owner) then Fail(NotContractOwner)
                    else if count > 0 && to == Zero then Fail(MintToZero)
                    else Pass)
      ensures r.Fail? ==> unchanged(this)
      ensures r.Pass? ==> crates == Minted(old(crates), to, count)
      ensures r.Pass? ==> prizes == MintedPrizes(old(prizes), address, quantities, count)
      ensures owner == old(owner) && recipient == old(recipient)
      ensures maxSales == old(maxSales) && sales == old(sales)
      ensures purchaseLimit == old(purchaseLimit) && price == old(price)
    {
      if caller != owner {
        return Fail(NotContractOwner);
      }
      if count > 0 && to == Zero {
        return Fail(MintToZero);
      }
      Allocate(to, count);
      r := Pass;
    }

    /**
     * purchase(to, count, maxCost) sent by `caller`, with the payment token
     * in state `pay`: within the per-call limit and the remaining supply, and
     * at a total price of at most maxCost, the crate contract draws
     * count * price from the caller and `to` receives `count` new crates.
     * The result is the payment token's new state; on any error every effect
     * is undone.
     */
    method Purchase(caller: Address, to: Address, count: nat, maxCost: nat, pay: Payment.Erc20)
      returns (r: Result<Payment.Erc20>)
      requires Valid()
      modifies this
      ensures Valid()
      ensures count > purchaseLimit ==> r == Err(ExceedsPurchaseLimit)
      ensures count <= purchaseLimit && old(sales) + count > maxSales ==> r == Err(InsufficientSupply)
      ensures count <= purchaseLimit && old(sales) + count <= maxSales && count * price > maxCost ==>
                r == Err(InsufficientPayment)
      ensures count <= purchaseLimit && old(sales) + count <= maxSales && count * price <= maxCost ==>
                var paid := Payment.TransferFrom(pay, address, caller, PaymentDestination(), count * price);
                r == if paid.Err? then Err(paid.error)
                     else if count > 0 && to == Zero then Err(MintToZero)
                     else Ok(paid.value)
      ensures r.Err? ==> unchanged(this)
      ensures r.Ok? ==> sales == old(sales) + count && sales <= maxSales
      ensures r.Ok? ==> crates == Minted(old(crates), to, count)
      ensures r.Ok? ==> prizes == MintedPrizes(old(prizes), address, quantities, count)
      ensures r.Ok? ==> forall a :: (Payment.BalanceOf(r.value, a) ==
                Payment.BalanceOf(pay, a) - (if a == caller then count * price else 0)
                  + (if a == PaymentDestination() then count * price else 0))
      ensures owner == old(owner) && recipient == old(recipient)
      ensures maxSales == old(maxSales) && purchaseLimit == old(purchaseLimit) && price == old(price)
    {
      if count > purchaseLimit {
        return Err(ExceedsPurchaseLimit);
      }
      if sales + count > maxSales {
        return Err(InsufficientSupply);
      }
      var cost := count * price;
      if cost > maxCost {
        return Err(InsufficientPayment);
      }
      var paid := Payment.TransferFrom(pay, address, caller, PaymentDestination(), cost);
      if paid.Err? {
        return Err(paid.error);
      }
      if count > 0 && to == Zero {
        return Err(MintToZero);
      }
      Payment.TransferFromEffect(pay, address, caller, PaymentDestination(), cost);
      sales := sales + count;
      Allocate(to, count);
      r := Ok(paid.value);
    }

    /** setMaxSales(n): the contract owner changes the sale cap. */
    method SetMaxSales(caller: Address, n: nat) returns (r: Outcome)
      requires Valid()
      modifies this
      ensures Valid()
      ensures r == if caller == owner then Pass else Fail(NotContractOwner)
      ensures maxSales == if r.Pass? then n else old(maxSales)
      ensures crates == old(crates) && contents == old(contents) && prizes == old(prizes)
      ensures owner == old(owner) && recipient == old(recipient) && sales == old(sales)
      ensures purchaseLimit == old(purchaseLimit) && price == old(price)
    {
      if caller != owner {
        return Fail(NotContractOwner);
      }
      maxSales := n;
      r := Pass;
    }

    /** setRecipient(a): the contract owner changes where payments go; zero means the contract itself. */
    method SetRecipient(caller: Address, a: Address) returns (r: Outcome)
      requires Valid()
      modifies this
      ensures Valid()
      ensures r == if caller == owner then Pass else Fail(NotContractOwner)
      ensures recipient == if r.Pass? then a else old(recipient)
      ensures crates == old(crates) && contents == old(contents) && prizes == old(prizes)
      ensures owner == old(owner) && maxSales == old(maxSales) && sales == old(sales)
      ensures purchaseLimit == old(purchaseLimit) && price == old(price)
    {
      if caller != owner {
        return Fail(NotContractOwner);
      }
      recipient := a;
      r := Pass;
    }

    /** transferOwnership(newOwner) (Ownable). */
    method TransferOwnership(caller: Address, newOwner: Address) returns (r: Outcome)
      requires Valid()
      modifies this
      ensures Valid()
      ensures r == (if caller != old(owner) then Fail(NotContractOwner)
                    else if newOwner == Zero then Fail(NewOwnerZero)
                    else Pass)
      ensures owner == if r.Pass? then newOwner else old(owner)
      ensures crates == old(crates) && contents == old(contents) && prizes == old(prizes)
      ensures recipient == old(recipient) && maxSales == old(maxSales) && sales == old(sales)
      ensures purchaseLimit == old(purchaseLimit) && price == old(price)
    {
      if caller != owner {
        return Fail(NotContractOwner);
      }
      if newOwner == Zero {
        return Fail(NewOwnerZero);
      }
      owner := newOwner;
      r := Pass;
    }

    /** transferFrom(from, to, id) on crates: the shared transfer rule; the contents travel with the crate. */
    method TransferFrom(caller: Address, from: Address, to: Address, id: nat) returns (r: Outcome)
      requires Valid()
      modifies this
      ensures Valid()
      ensures var t := Transfer(old(crates), caller, from, to, id);
        && (t.Ok? ==> r == Pass && crates == t.value)
        && (t.Err? ==> r == Fail(t.error) && crates == old(crates))
      ensures contents == old(contents) && prizes == old(prizes)
      ensures owner == old(owner) && recipient == old(recipient) && maxSales == old(maxSales)
      ensures sales == old(sales) && purchaseLimit == old(purchaseLimit) && price == old(price)
    {
      var t := Transfer(crates, caller, from, to, id);
      if t.Err? {
        return Fail(t.error);
      }
      TransferEffect(crates, caller, from, to, id);
      crates := t.value;
      r := Pass;
    }

    /** approve(to, id) on crates. */
    method Approve(caller: Address, to: Address, id: nat) returns (r: Outcome)
      requires Valid()
      modifies this
      ensures Valid()
      ensures var t := Erc721.Approve(old(crates), caller, to, id);
        && (t.Ok? ==> r == Pass && crates == t.value)
        && (t.Err? ==> r == Fail(t.error) && crates == old(crates))
      ensures contents == old(contents) && prizes == old(prizes)
      ensures owner == old(owner) && recipient == old(recipient) && maxSales == old(maxSales)
      ensures sales == old(sales) && purchaseLimit == old(purchaseLimit) && price == old(price)
    {
      var t := Erc721.Approve(crates, caller, to, id);
      if t.Err? {
        return Fail(t.error);
      }
      crates := t.value;
      r := Pass;
    }

    /** setApprovalForAll(operator, approved) on crates. */
    method SetApprovalForAll(caller: Address, operator: Address, approved: bool) returns (r: Outcome)
      requires Valid()
      modifies this
      ensures Valid()
      ensures var t := Erc721.SetApprovalForAll(old(crates), caller, operator, approved);
        && (t.Ok? ==> r == Pass && crates == t.value)
        && (t.Err? ==> r == Fail(t.error) && crates == old(crates))
      ensures contents == old(contents) && prizes == old(prizes)
      ensures owner == old(owner) && recipient == old(recipient) && maxSales == old(maxSales)
      ensures sales == old(sales) && purchaseLimit == old(purchaseLimit) && price == old(price)
    {
      var t := Erc721.SetApprovalForAll(crates, caller, operator, approved);
      if t.Err? {
        return Fail(t.error);
      }
      crates := t.value;
      r := Pass;
    }

    /**
     * revealFrom(from, to, id) sent by `caller`: after the reveal checks,
     * every prize of crate id goes to `to` and the crate is destroyed; other
     * crates and their prizes are untouched.
     */
    method RevealFrom(caller: Address, from: Address, to: Address, id: nat) returns (r: Outcome)
      requires Valid()
      modifies this
      ensures Valid()
      ensures r == RevealCheck(old(crates), caller, from, to, id)
      ensures r.Fail? ==> unchanged(this)
      ensures r.Pass? ==> crates == Burned(old(crates), {id}) && contents == old(contents) - {id}
      ensures r.Pass? ==> Released(quantities, old(prizes), prizes, map[id := to])
      ensures owner == old(owner) && recipient == old(recipient) && maxSales == old(maxSales)
      ensures sales == old(sales) && purchaseLimit == old(purchaseLimit) && price == old(price)
    {
      r := RevealCheck(crates, caller, from, to, id);
      if r.Fail? {
        return;
      }
      crates, contents, prizes := ReleaseCrate(quantities, address, crates, contents, prizes, id, to);
    }

    /**
     * forceReveal(ids): the contract owner opens every listed crate that
     * exists for that crate's own owner; ids of crates that do not exist or
     * were already opened, earlier in the list or before, are skipped.
     */
    method ForceReveal(caller: Address, ids: seq<nat>) returns (r: Outcome)
      requires Valid()
      modifies this
      ensures Valid()
      ensures r == if caller == old(owner) then Pass else Fail(NotContractOwner)
      ensures r.Fail? ==> unchanged(this)
      ensures r.Pass? ==> var revealed := Revealable(old(crates), ids);
        && crates == Burned(old(crates), revealed)
        && contents == old(contents) - revealed
        && Released(quantities, old(prizes), prizes, Restrict(old(crates).owners, revealed))
      ensures owner == old(owner) && recipient == old(recipient) && maxSales == old(maxSales)
      ensures sales == old(sales) && purchaseLimit == old(purchaseLimit) && price == old(price)
    {
      if caller != owner {
        return Fail(NotContractOwner);
      }
      var remaining, records, ledgers := crates, contents, prizes;
      var i := 0;
      while i < |ids|
        invariant 0 <= i <= |ids|
        invariant (remaining, records, ledgers) == RevealAll(crates, contents, prizes, ids[..i])
        modifies {}
      {
        var c := ids[i];
        RevealAllEffect(quantities, address, crates, contents, prizes, ids[..i]);
        assert ids[..i + 1][..i] == ids[..i];
        if c in remaining.owners {
          remaining, records, ledgers := ReleaseCrate(quantities, address, remaining, records, ledgers, c, remaining.owners[c]);
        }
        i := i + 1;
      }
      assert ids[..i] == ids;
      RevealAllEffect(quantities, address, crates, contents, prizes, ids);
      crates, contents, prizes := remaining, records, ledgers;
      r := Pass;
    }

    // -------------------------------------------------------------------
    // Views

    /** saleContents(i): the prize token and per-crate quantity of kind i. */
    function SaleContents(i: nat): (r: Result<(Address, nat)>)
      reads this
      requires Valid()
      ensures r.Ok? <==> i < |quantities|
      ensures r.Ok? ==> r.value == (prizeTokens[i], quantities[i])
    {
      if i < |quantities| then Ok((prizeTokens[i], quantities[i])) else Err(IndexOutOfRange)
    }

    /** saleContentsLength(): the number of prize kinds, exactly the indices saleContents accepts. */
    function SaleContentsLength(): (n: nat)
      reads this
      requires Valid()
      ensures n == |prizeTokens|
      ensures forall i: nat :: i < n <==> SaleContents(i).Ok?
    {
      |quantities|
    }

    /** crateContentsLength(id): a live crate holds the sum of the quantities; any other id holds nothing. */
    function CrateContentsLength(id: nat): (n: nat)
      reads this
      requires Valid()
      ensures n == if id in crates.owners then Sum(quantities) else 0
    {
      if id in contents then
        LayoutLength(quantities, id);
        |contents[id]|
      else 0
    }

    /** crateContents(id, i): the prize token and token id of entry i of crate id. */
    function CrateContents(id: nat, i: nat): (r: Result<(Address, nat)>)
      reads this
      requires Valid()
      ensures r.Ok? <==> id in crates.owners && i < Sum(quantities)
    {
      LayoutLength(quantities, id);
      if id in contents && i < |contents[id]| then
        var p := contents[id][i];
        LayoutMember(quantities, id, p);
        Ok((prizeTokens[p.kind], p.tokenId))
      else Err(IndexOutOfRange)
    }

    /**
     * Entry Offset(k) + t of live crate id is token id * q[k] + t of prize
     * kind k, whichever calls created the crates.
     */
    lemma CrateContentsEntry(id: nat, k: nat, t: nat)
      requires Valid() && id in crates.owners && k < |quantities| && t < quantities[k]
      ensures var e := CrateContents(id, Offset(quantities, k) + t);
        e.Ok? && e.value.0 == prizeTokens[k] && e.value.1 == id * quantities[k] + t
    {
      LayoutEntry(quantities, id, k, t);
    }

    /** No entry of a live crate repeats another: no prize token id is handed out twice. */
    lemma CrateContentsDistinct(id: nat, i: nat, j: nat)
      requires Valid() && id in crates.owners && i < j < Sum(quantities)
      ensures CrateContents(id, i).Ok? && CrateContents(id, j).Ok?
      ensures CrateContents(id, i) != CrateContents(id, j)
    {
      LayoutLength(quantities, id);
      var e := Layout(quantities, id);
      LayoutDistinct(quantities, id, i, j);
      LayoutMember(quantities, id, e[i]);
      LayoutMember(quantities, id, e[j]);
      assert e[i] in e && e[j] in e;
      if prizeTokens[e[i].kind] == prizeTokens[e[j].kind] {
        assert e[i].kind == e[j].kind;
      }
    }

    /**
     * With quantities [3, 2, 1], the contents of every live crate follow the
     * reference formula entry by entry.
     */
    lemma CrateContentsThreeTwoOne(id: nat, j: nat)
      requires Valid() && quantities == [3, 2, 1] && id in crates.owners && j < 6
      ensures var e := ThreeTwoOneEntry(id, j);
        CrateContents(id, j) == Ok((prizeTokens[e.kind], e.tokenId))
    {
      LayoutThreeTwoOne(id);
    }
  }
}
