/**
 * Where the prizes of a loot crate sit. A crate sale is configured with an
 * ordered list of prize kinds and, for each kind, how many tokens of it go
 * into one crate (the "quantities"). Crate c receives, kind by kind in
 * order, the next quantities[k] ids of prize kind k; since every crate
 * takes the same number of each kind, those are the ids
 * c*quantities[k] .. c*quantities[k]+quantities[k]-1.
 */
module CrateLayout {
  /** One entry of a crate's contents: the index of the prize token in the sale list, and the token id. */
  datatype Prize = Prize(kind: nat, tokenId: nat)

  /** The number of prizes in one crate. */
  function Sum(q: seq<nat>): nat {
    if |q| == 0 then 0 else Sum(q[..|q| - 1]) + q[|q| - 1]
  }

  /** The n prizes of kind k that crate c receives. */
  function Block(k: nat, c: nat, n: nat): seq<Prize> {
    seq(n, t requires 0 <= t < n => Prize(k, c * n + t))
  }

  /** The contents of crate c: the block of every kind, in the order the kinds are listed. */
  function Layout(q: seq<nat>, c: nat): seq<Prize> {
    if |q| == 0 then [] else Layout(q[..|q| - 1], c) + Block(|q| - 1, c, q[|q| - 1])
  }

  /** The position in a crate's contents where the block of kind k starts. */
  function Offset(q: seq<nat>, k: nat): nat
    requires k <= |q|
  {
    Sum(q[..k])
  }

  /** Prize kind k, token t belongs to crate c. */
  predicate InCrate(q: seq<nat>, c: nat, k: nat, t: nat) {
    k < |q| && c * q[k] <= t < c * q[k] + q[k]
  }

  // ---------------------------------------------------------------------
  // Arithmetic on blocks

  /** Blocks of the same kind belonging to two different crates do not overlap. */
  lemma BlocksApart(c: nat, d: nat, n: nat)
    requires c < d
    ensures c * n + n <= d * n
  {
    assert c * n + n == (c + 1) * n;
    assert (c + 1) * n <= d * n;
  }

  /**
   * A prize belongs to exactly one crate: the crate is the token id divided
   * by the quantity of its kind.
   */
  lemma {:induction false} InCrateByDivision(q: seq<nat>, c: nat, k: nat, t: nat)
    requires k < |q|
    ensures InCrate(q, c, k, t) <==> q[k] > 0 && t / q[k] == c
  {
    var n := q[k];
    if n > 0 {
      var d := t / n;
      assert t == d * n + t % n && 0 <= t % n < n;
      if InCrate(q, c, k, t) {
        if c < d {
          BlocksApart(c, d, n);
        } else if d < c {
          BlocksApart(d, c, n);
        }
      } else {
        assert !(c * n <= d * n + t % n < c * n + n);
        assert d != c;
      }
    }
  }

  /** No prize is in two crates. */
  lemma InCrateUnique(q: seq<nat>, c: nat, d: nat, k: nat, t: nat)
    requires InCrate(q, c, k, t) && InCrate(q, d, k, t)
    ensures c == d
  {
    InCrateByDivision(q, c, k, t);
    InCrateByDivision(q, d, k, t);
  }

  // ---------------------------------------------------------------------
  // Sums and offsets

  lemma SumStep(q: seq<nat>, k: nat)
    requires k < |q|
    ensures Sum(q[..k + 1]) == Sum(q[..k]) + q[k]
  {
    assert q[..k + 1][..k] == q[..k];
  }

  /** Each kind's block ends within the crate. */
  lemma {:induction false} OffsetBound(q: seq<nat>, k: nat)
    requires k < |q|
    ensures Offset(q, k) + q[k] <= Sum(q)
  {
    SumStep(q, k);
    if k + 1 < |q| {
      var m := |q| - 1;
      assert q[..m][..k] == q[..k] && q[..m][k] == q[k];
      OffsetBound(q[..m], k);
      assert Sum(q) == Sum(q[..m]) + q[m];
    } else {
      assert q[..k + 1] == q;
    }
  }

  // ---------------------------------------------------------------------
  // The layout of one crate

  /** crateContentsLength(c): every crate holds the sum of the quantities. */
  lemma {:induction false} LayoutLength(q: seq<nat>, c: nat)
    ensures |Layout(q, c)| == Sum(q)
  {
    if |q| > 0 {
      LayoutLength(q[..|q| - 1], c);
    }
  }

  /** The prizes in crate c are exactly those of the c-th block of every kind. */
  lemma {:induction false} LayoutMember(q: seq<nat>, c: nat, p: Prize)
    ensures p in Layout(q, c) <==> InCrate(q, c, p.kind, p.tokenId)
  {
    if |q| > 0 {
      var m := |q| - 1;
      var q' := q[..m];
      LayoutMember(q', c, p);
      assert Layout(q, c) == Layout(q', c) + Block(m, c, q[m]);
      if p.kind < m {
        assert q'[p.kind] == q[p.kind];
      }
      if p in Block(m, c, q[m]) {
        var t :| 0 <= t < q[m] && Block(m, c, q[m])[t] == p;
      }
      if p.kind == m && InCrate(q, c, p.kind, p.tokenId) {
        assert Block(m, c, q[m])[p.tokenId - c * q[m]] == p;
      }
    }
  }

  /**
   * Entry Offset(q, k) + t of crate c is token c*q[k] + t of kind k: the
   * blocks come in the order of the kinds, each in increasing id order.
   */
  lemma {:induction false} LayoutEntry(q: seq<nat>, c: nat, k: nat, t: nat)
    requires k < |q| && t < q[k]
    ensures Offset(q, k) + t < |Layout(q, c)|
    ensures Layout(q, c)[Offset(q, k) + t] == Prize(k, c * q[k] + t)
  {
    var m := |q| - 1;
    var q' := q[..m];
    LayoutLength(q, c);
    OffsetBound(q, k);
    LayoutLength(q', c);
    assert Layout(q, c) == Layout(q', c) + Block(m, c, q[m]);
    if k < m {
      assert q'[..k] == q[..k] && q'[k] == q[k];
      LayoutEntry(q', c, k, t);
    } else {
      assert q[..k] == q';
    }
  }

  /** No prize appears twice in a crate. */
  lemma {:induction false} LayoutDistinct(q: seq<nat>, c: nat, i: nat, j: nat)
    requires i < j < |Layout(q, c)|
    ensures Layout(q, c)[i] != Layout(q, c)[j]
  {
    var m := |q| - 1;
    var q' := q[..m];
    var n := q[m];
    LayoutLength(q', c);
    assert Layout(q, c) == Layout(q', c) + Block(m, c, n);
    var s := Sum(q');
    if j < s {
      LayoutDistinct(q', c, i, j);
    } else if i < s {
      var p := Layout(q', c)[i];
      assert p in Layout(q', c);
      LayoutMember(q', c, p);
      assert p.kind < m;
    }
  }

  /** Two different crates share no prize. */
  lemma LayoutDisjoint(q: seq<nat>, c: nat, d: nat, p: Prize)
    requires c != d
    ensures !(p in Layout(q, c) && p in Layout(q, d))
  {
    LayoutMember(q, c, p);
    LayoutMember(q, d, p);
    if InCrate(q, c, p.kind, p.tokenId) && InCrate(q, d, p.kind, p.tokenId) {
      InCrateUnique(q, c, d, p.kind, p.tokenId);
    }
  }

  /**
   * The reference formula for quantities [3, 2, 1]: entries 0..2 of crate i
   * are tokens 3i .. 3i+2 of kind 0, entries 3..4 are tokens 2i, 2i+1 of
   * kind 1, and entry 5 is token i of kind 2.
   */
  function ThreeTwoOneEntry(i: nat, j: nat): Prize
    requires j < 6
  {
    if j <= 2 then Prize(0, i * 3 + j)
    else if j <= 4 then Prize(1, i * 2 + j - 3)
    else Prize(2, i)
  }

  /** With quantities [3, 2, 1] every crate holds six prizes, laid out as the reference formula says. */
  lemma LayoutThreeTwoOne(i: nat)
    ensures |Layout([3, 2, 1], i)| == 6
    ensures forall j :: 0 <= j < 6 ==> Layout([3, 2, 1], i)[j] == ThreeTwoOneEntry(i, j)
  {
    var q: seq<nat> := [3, 2, 1];
    LayoutLength(q, i);
    assert q[..0] == [] && q[..1] == [3] && q[..2] == [3, 2];
    assert [3, 2][..1] == [3] && [3][..0] == [];
    assert Offset(q, 0) == 0 && Offset(q, 1) == 3 && Offset(q, 2) == 5;
    forall j | 0 <= j < 6
      ensures Layout(q, i)[j] == ThreeTwoOneEntry(i, j)
    {
      if j <= 2 {
        LayoutEntry(q, i, 0, j);
      } else if j <= 4 {
        LayoutEntry(q, i, 1, j - 3);
      } else {
        LayoutEntry(q, i, 2, 0);
      }
    }
  }
}
