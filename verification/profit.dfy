/** Unit profit of every supplier/recipient route: what the recipient pays
    the mediator, less the transport cost, less what the mediator pays the
    supplier. */
module Profit {
  import opened Entities

  function TransportCost(costs: Costs, s: Supplier, r: Recipient): real
    requires HasCost(costs, r.id, s.id)
  {
    costs[r.id][s.id]
  }

  function UnitProfit(costs: Costs, s: Supplier, r: Recipient): real
    requires HasCost(costs, r.id, s.id)
  {
    r.purchasePrice - TransportCost(costs, s, r) - s.sellingPrice
  }

  /** The profit matrix as a value: entry (i, j) is the unit profit of the
      route from supplier i to recipient j. */
  function ProfitMatrix(suppliers: seq<Supplier>, recipients: seq<Recipient>, costs: Costs): (profit: seq<seq<real>>)
    requires CoversAll(costs, suppliers, recipients)
    ensures IsMatrix(profit, |suppliers|, |recipients|)
  {
    seq(|suppliers|, i requires 0 <= i < |suppliers| =>
      seq(|recipients|, j requires 0 <= j < |recipients| => UnitProfit(costs, suppliers[i], recipients[j])))
  }

  /** Builds the m-by-n profit matrix row by row, as the two nested
      loops of createProfitMatrix do. */
  method CreateProfitMatrix(suppliers: seq<Supplier>, recipients: seq<Recipient>, costs: Costs)
    returns (profit: seq<seq<real>>)
    requires CoversAll(costs, suppliers, recipients)
    ensures IsMatrix(profit, |suppliers|, |recipients|)
    ensures forall i, j :: 0 <= i < |suppliers| && 0 <= j < |recipients| ==>
      profit[i][j] == recipients[j].purchasePrice - TransportCost(costs, suppliers[i], recipients[j]) - suppliers[i].sellingPrice
    ensures profit == ProfitMatrix(suppliers, recipients, costs)
  {
    var m := |suppliers|;
    var n := |recipients|;
    profit := [];
    var i := 0;
    while i < m
      invariant 0 <= i <= m
      invariant IsMatrix(profit, i, n)
      invariant forall i', j :: 0 <= i' < i && 0 <= j < n ==>
        profit[i'][j] == UnitProfit(costs, suppliers[i'], recipients[j])
    {
      var row: seq<real> := [];
      var j := 0;
      while j < n
        invariant 0 <= j <= n
        invariant |row| == j
        invariant forall j' :: 0 <= j' < j ==> row[j'] == UnitProfit(costs, suppliers[i], recipients[j'])
      {
        var supplier, recipient := suppliers[i], recipients[j];
        var transportCost := costs[recipient.id][supplier.id];
        var whatRecipientPaysUs := recipient.purchasePrice;
        var whatWePaySupplier := supplier.sellingPrice;
        row := row + [whatRecipientPaysUs - transportCost - whatWePaySupplier];
        j := j + 1;
      }
      profit := profit + [row];
      i := i + 1;
    }
    forall i' | 0 <= i' < m
      ensures profit[i'] == ProfitMatrix(suppliers, recipients, costs)[i']
    {
    }
  }
}
