/** Money totals of an allocation: only routes carrying more than Epsilon
    between two real (non-fictional) parties count; each adds what the
    mediator pays (transport plus the supplier's price) to the cost and
    what the recipient pays to the income. */
module Totals {
  import opened Entities
  import opened Profit

  datatype Totals = Totals(totalCost: real, totalIncome: real, totalProfit: real)

  /** Cost and income accumulated over some routes. */
  datatype Flow = Flow(cost: real, income: real)

  const NoFlow := Flow(0.0, 0.0)

  function Add(a: Flow, b: Flow): Flow {
    Flow(a.cost + b.cost, a.income + b.income)
  }

  predicate Fits(solution: seq<seq<real>>, suppliers: seq<Supplier>, recipients: seq<Recipient>) {
    IsMatrix(solution, |suppliers|, |recipients|)
  }

  /** Route (i, j) enters the totals: it carries more than Epsilon and
      neither end is fictional. */
  predicate Contributes(solution: seq<seq<real>>, suppliers: seq<Supplier>, recipients: seq<Recipient>, i: nat, j: nat)
    requires Fits(solution, suppliers, recipients) && i < |suppliers| && j < |recipients|
  {
    solution[i][j] > Epsilon && !IsFictional(suppliers[i].id) && !IsFictional(recipients[j].id)
  }

  /** Every contributing route has a transport cost to look up. */
  predicate PricedWhereUsed(solution: seq<seq<real>>, suppliers: seq<Supplier>, recipients: seq<Recipient>, costs: Costs)
    requires Fits(solution, suppliers, recipients)
  {
    forall i, j :: 0 <= i < |suppliers| && 0 <= j < |recipients| && Contributes(solution, suppliers, recipients, i, j) ==>
      HasCost(costs, recipients[j].id, suppliers[i].id)
  }

  predicate Ready(solution: seq<seq<real>>, suppliers: seq<Supplier>, recipients: seq<Recipient>, costs: Costs) {
    Fits(solution, suppliers, recipients) && PricedWhereUsed(solution, suppliers, recipients, costs)
  }

  /** What route (i, j) adds to the totals. */
  function RouteFlow(solution: seq<seq<real>>, suppliers: seq<Supplier>, recipients: seq<Recipient>, costs: Costs, i: nat, j: nat): Flow
    requires Ready(solution, suppliers, recipients, costs) && i < |suppliers| && j < |recipients|
  {
    if Contributes(solution, suppliers, recipients, i, j) then
      var quantity := solution[i][j];
      Flow(quantity * (TransportCost(costs, suppliers[i], recipients[j]) + suppliers[i].sellingPrice),
           quantity * recipients[j].purchasePrice)
    else NoFlow
  }

  /** Routes (i, 0) .. (i, j - 1). */
  function RowFlow(solution: seq<seq<real>>, suppliers: seq<Supplier>, recipients: seq<Recipient>, costs: Costs, i: nat, j: nat): Flow
    requires Ready(solution, suppliers, recipients, costs) && i < |suppliers| && j <= |recipients|
  {
    if j == 0 then NoFlow
    else Add(RowFlow(solution, suppliers, recipients, costs, i, j - 1), RouteFlow(solution, suppliers, recipients, costs, i, j - 1))
  }

  /** All routes of rows 0 .. i - 1. */
  function GridFlow(solution: seq<seq<real>>, suppliers: seq<Supplier>, recipients: seq<Recipient>, costs: Costs, i: nat): Flow
    requires Ready(solution, suppliers, recipients, costs) && i <= |suppliers|
  {
    if i == 0 then NoFlow
    else Add(GridFlow(solution, suppliers, recipients, costs, i - 1), RowFlow(solution, suppliers, recipients, costs, i - 1, |recipients|))
  }

  /** The totals, accumulated route by route in row-major order as the
      nested loops of calculateTotals do; profit is income minus cost. */
  method CalculateTotals(solution: seq<seq<real>>, suppliers: seq<Supplier>, recipients: seq<Recipient>, costs: Costs)
    returns (totals: Totals)
    requires Ready(solution, suppliers, recipients, costs)
    ensures var all := GridFlow(solution, suppliers, recipients, costs, |suppliers|);
      totals.totalCost == all.cost && totals.totalIncome == all.income
    ensures totals.totalProfit == totals.totalIncome - totals.totalCost
  {
    var totalCost := 0.0;
    var totalIncome := 0.0;
    var m, n := |suppliers|, |recipients|;
    var i := 0;
    while i < m
      invariant 0 <= i <= m
      invariant Flow(totalCost, totalIncome) == GridFlow(solution, suppliers, recipients, costs, i)
    {
      var j := 0;
      while j < n
        invariant 0 <= j <= n
        invariant Flow(totalCost, totalIncome) ==
          Add(GridFlow(solution, suppliers, recipients, costs, i), RowFlow(solution, suppliers, recipients, costs, i, j))
      {
        if solution[i][j] > Epsilon {
          var quantity := solution[i][j];
          var supplier, recipient := suppliers[i], recipients[j];
          if !IsFictional(supplier.id) && !IsFictional(recipient.id) {
            var transportCost := costs[recipient.id][supplier.id];
            totalCost := totalCost + quantity * (transportCost + supplier.sellingPrice);
            totalIncome := totalIncome + quantity * recipient.purchasePrice;
          }
        }
        j := j + 1;
      }
      i := i + 1;
    }
    totals := Totals(totalCost, totalIncome, totalIncome - totalCost);
  }

  // ---------------------------------------------------------- profit view

  /** Quantity times unit profit on a contributing route, else 0. */
  function RouteProfit(solution: seq<seq<real>>, suppliers: seq<Supplier>, recipients: seq<Recipient>, costs: Costs, i: nat, j: nat): real
    requires Ready(solution, suppliers, recipients, costs) && i < |suppliers| && j < |recipients|
  {
    if Contributes(solution, suppliers, recipients, i, j) then
      solution[i][j] * UnitProfit(costs, suppliers[i], recipients[j])
    else 0.0
  }

  function RowProfit(solution: seq<seq<real>>, suppliers: seq<Supplier>, recipients: seq<Recipient>, costs: Costs, i: nat, j: nat): real
    requires Ready(solution, suppliers, recipients, costs) && i < |suppliers| && j <= |recipients|
  {
    if j == 0 then 0.0
    else RowProfit(solution, suppliers, recipients, costs, i, j - 1) + RouteProfit(solution, suppliers, recipients, costs, i, j - 1)
  }

  /** Quantity times unit profit, summed over the contributing routes of
      rows 0 .. i - 1. */
  function GridProfit(solution: seq<seq<real>>, suppliers: seq<Supplier>, recipients: seq<Recipient>, costs: Costs, i: nat): real
    requires Ready(solution, suppliers, recipients, costs) && i <= |suppliers|
  {
    if i == 0 then 0.0
    else GridProfit(solution, suppliers, recipients, costs, i - 1) + RowProfit(solution, suppliers, recipients, costs, i - 1, |recipients|)
  }

  lemma RouteProfitIsIncomeLessCost(solution: seq<seq<real>>, suppliers: seq<Supplier>, recipients: seq<Recipient>, costs: Costs, i: nat, j: nat)
    requires Ready(solution, suppliers, recipients, costs) && i < |suppliers| && j < |recipients|
    ensures var f := RouteFlow(solution, suppliers, recipients, costs, i, j);
      f.income - f.cost == RouteProfit(solution, suppliers, recipients, costs, i, j)
  {
    if Contributes(solution, suppliers, recipients, i, j) {
      var q := solution[i][j];
      var t := TransportCost(costs, suppliers[i], recipients[j]);
      var s, p := suppliers[i].sellingPrice, recipients[j].purchasePrice;
      assert q * p - q * (t + s) == q * (p - t - s);
    }
  }

  lemma {:induction false} RowProfitIsIncomeLessCost(solution: seq<seq<real>>, suppliers: seq<Supplier>, recipients: seq<Recipient>, costs: Costs, i: nat, j: nat)
    requires Ready(solution, suppliers, recipients, costs) && i < |suppliers| && j <= |recipients|
    ensures var f := RowFlow(solution, suppliers, recipients, costs, i, j);
      f.income - f.cost == RowProfit(solution, suppliers, recipients, costs, i, j)
  {
    if j > 0 {
      RowProfitIsIncomeLessCost(solution, suppliers, recipients, costs, i, j - 1);
      RouteProfitIsIncomeLessCost(solution, suppliers, recipients, costs, i, j - 1);
    }
  }

  /** Total profit equals the quantity-weighted unit profits of the
      contributing routes. */
  lemma {:induction false} ProfitIsSumOfUnitProfits(solution: seq<seq<real>>, suppliers: seq<Supplier>, recipients: seq<Recipient>, costs: Costs, i: nat)
    requires Ready(solution, suppliers, recipients, costs) && i <= |suppliers|
    ensures var f := GridFlow(solution, suppliers, recipients, costs, i);
      f.income - f.cost == GridProfit(solution, suppliers, recipients, costs, i)
  {
    if i > 0 {
      ProfitIsSumOfUnitProfits(solution, suppliers, recipients, costs, i - 1);
      RowProfitIsIncomeLessCost(solution, suppliers, recipients, costs, i - 1, |recipients|);
    }
  }

  // ------------------------------------------------------ what is ignored

  /** a and b contribute on the same routes, with equal quantities there. */
  predicate SameContributions(a: seq<seq<real>>, b: seq<seq<real>>, suppliers: seq<Supplier>, recipients: seq<Recipient>)
    requires Fits(a, suppliers, recipients) && Fits(b, suppliers, recipients)
  {
    forall i, j :: 0 <= i < |suppliers| && 0 <= j < |recipients| ==>
      Contributes(a, suppliers, recipients, i, j) == Contributes(b, suppliers, recipients, i, j) &&
      (Contributes(a, suppliers, recipients, i, j) ==> a[i][j] == b[i][j])
  }

  lemma {:induction false} SameRowFlow(a: seq<seq<real>>, b: seq<seq<real>>, suppliers: seq<Supplier>, recipients: seq<Recipient>, costs: Costs, i: nat, j: nat)
    requires Ready(a, suppliers, recipients, costs) && Ready(b, suppliers, recipients, costs)
    requires SameContributions(a, b, suppliers, recipients) && i < |suppliers| && j <= |recipients|
    ensures RowFlow(a, suppliers, recipients, costs, i, j) == RowFlow(b, suppliers, recipients, costs, i, j)
  {
    if j > 0 {
      SameRowFlow(a, b, suppliers, recipients, costs, i, j - 1);
      SameRouteFlow(a, b, suppliers, recipients, costs, i, j - 1);
    }
  }

  lemma SameRouteFlow(a: seq<seq<real>>, b: seq<seq<real>>, suppliers: seq<Supplier>, recipients: seq<Recipient>, costs: Costs, i: nat, j: nat)
    requires Ready(a, suppliers, recipients, costs) && Ready(b, suppliers, recipients, costs)
    requires SameContributions(a, b, suppliers, recipients) && i < |suppliers| && j < |recipients|
    ensures RouteFlow(a, suppliers, recipients, costs, i, j) == RouteFlow(b, suppliers, recipients, costs, i, j)
  {
    assert Contributes(a, suppliers, recipients, i, j) == Contributes(b, suppliers, recipients, i, j);
    if Contributes(a, suppliers, recipients, i, j) {
      assert a[i][j] == b[i][j];
    }
  }

  /** The totals see only contributing routes: cells at or below Epsilon
      (the repair's epsilon cells among them) and routes of a fictional
      party may hold anything. */
  lemma {:induction false} TotalsIgnoreNonContributing(a: seq<seq<real>>, b: seq<seq<real>>, suppliers: seq<Supplier>, recipients: seq<Recipient>, costs: Costs, i: nat)
    requires Ready(a, suppliers, recipients, costs) && Ready(b, suppliers, recipients, costs)
    requires SameContributions(a, b, suppliers, recipients) && i <= |suppliers|
    ensures GridFlow(a, suppliers, recipients, costs, i) == GridFlow(b, suppliers, recipients, costs, i)
  {
    if i > 0 {
      TotalsIgnoreNonContributing(a, b, suppliers, recipients, costs, i - 1);
      SameRowFlow(a, b, suppliers, recipients, costs, i - 1, |recipients|);
    }
  }
}
