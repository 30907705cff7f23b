/** The carry-over register `sellExtraNanosOnNextRound`: NANO bought by a
    partially filled limit order, waiting to be merged into the next sell. */
module CarryOver {

  /** The register's value: how much is carried and the highest price paid for it. */
  datatype Carry = Carry(amount: real, boughtAt: real)

  /** The register's initial value, and its value after a successful sell. */
  const Zero: Carry := Carry(0.0, 0.0)

  /** Math.max. */
  function Max(a: real, b: real): (m: real)
    ensures m >= a && m >= b && (m == a || m == b)
  {
    if a >= b then a else b
  }

  /** Folding a partial fill into the register: the amounts add up and the
      tracked price is the higher of the two, so it never drops. */
  function Fold(c: Carry, executedQty: real, price: real): (r: Carry)
    ensures r.amount - c.amount == executedQty
    ensures r.boughtAt >= c.boughtAt && r.boughtAt >= price
    ensures r.boughtAt == c.boughtAt || r.boughtAt == price
  {
    Carry(c.amount + executedQty, Max(price, c.boughtAt))
  }

  /** One partially filled limit order, as folded into the register. */
  datatype PartialFill = PartialFill(executedQty: real, price: real)

  /** The register after a run of partial fills, folded in order. */
  function FoldAll(c: Carry, fills: seq<PartialFill>): Carry
  {
    if fills == [] then c
    else
      var last := fills[|fills| - 1];
      Fold(FoldAll(c, fills[..|fills| - 1]), last.executedQty, last.price)
  }

  /** Total quantity of a run of partial fills. */
  function TotalQty(fills: seq<PartialFill>): real
  {
    if fills == [] then 0.0 else TotalQty(fills[..|fills| - 1]) + fills[|fills| - 1].executedQty
  }

  /** After a run of partial fills, the register holds everything bought and
      tracks the worst (highest) price among the fills and the starting price. */
  lemma {:induction false} FoldAllTotals(c: Carry, fills: seq<PartialFill>)
    ensures FoldAll(c, fills).amount == c.amount + TotalQty(fills)
    ensures FoldAll(c, fills).boughtAt >= c.boughtAt
    ensures forall k :: 0 <= k < |fills| ==> FoldAll(c, fills).boughtAt >= fills[k].price
    ensures FoldAll(c, fills).boughtAt == c.boughtAt ||
            exists k :: 0 <= k < |fills| && FoldAll(c, fills).boughtAt == fills[k].price
  {
    if fills != [] {
      var init := fills[..|fills| - 1];
      FoldAllTotals(c, init);
      assert forall k :: 0 <= k < |init| ==> init[k] == fills[k];
    }
  }

  /** Across successive partial fills both fields only grow: a later, cheaper
      fill never lowers the tracked price, and bought quantities never shrink
      the amount. */
  lemma {:induction false} FoldAllMonotone(c: Carry, fills: seq<PartialFill>, j: nat, k: nat)
    requires j <= k <= |fills|
    requires forall i :: 0 <= i < |fills| ==> fills[i].executedQty >= 0.0
    ensures FoldAll(c, fills[..j]).amount <= FoldAll(c, fills[..k]).amount
    ensures FoldAll(c, fills[..j]).boughtAt <= FoldAll(c, fills[..k]).boughtAt
    decreases k - j
  {
    if j < k {
      FoldAllMonotone(c, fills, j, k - 1);
      assert fills[..k][..k - 1] == fills[..k - 1];
      assert fills[..k][k - 1] == fills[k - 1];
    }
  }
}
