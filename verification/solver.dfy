/** The solver's entry point for a balanced problem: the greedy
    maximum-profit allocation with its degeneracy repair, then the MODI
    optimizer. */
module Solver {
  import opened Entities
  import Greedy
  import Modi

  /** The allocation the solver returns, and (as proof witnesses) the
      greedy allocation before the repair and the result's non-zero cells. The optimizer hands back the
      repaired allocation unchanged, so everything the greedy stage and
      the repair promise holds of the result. solveVAM needs at least
      one supplier: the optimizer reads the width off the first row. */
  method SolveVAM(suppliers: seq<Supplier>, recipients: seq<Recipient>, profit: seq<seq<real>>)
    returns (solution: seq<seq<real>>, ghost greedy: seq<seq<real>>, ghost occupied: set<Cell>)
    requires |suppliers| > 0
    requires IsMatrix(profit, |suppliers|, |recipients|)
    requires NonNegativeQuantities(suppliers, recipients)
    ensures IsMatrix(solution, |suppliers|, |recipients|) && IsMatrix(greedy, |suppliers|, |recipients|)
    ensures forall i, j :: 0 <= i < |suppliers| && 0 <= j < |recipients| ==> solution[i][j] >= 0.0
    ensures forall i, j :: 0 <= i < |suppliers| && 0 <= j < |recipients| ==>
      solution[i][j] == greedy[i][j] || (greedy[i][j] == 0.0 && solution[i][j] == Epsilon)
    ensures forall i :: 0 <= i < |suppliers| ==> Sum(greedy[i]) <= suppliers[i].supply
    ensures forall j :: 0 <= j < |recipients| ==> Sum(Column(greedy, j)) <= recipients[j].demand
    ensures TotalSupply(suppliers) == TotalDemand(recipients) ==>
      (forall i :: 0 <= i < |suppliers| ==> Sum(greedy[i]) == suppliers[i].supply) &&
      (forall j :: 0 <= j < |recipients| ==> Sum(Column(greedy, j)) == recipients[j].demand)
    // a basic solution: m + n - 1 non-zero cells, unless every cell is non-zero
    ensures forall c :: c in occupied <==> InBounds(c, |suppliers|, |recipients|) && solution[c.i][c.j] != 0.0
    ensures |recipients| > 0 ==> |occupied| <= |suppliers| + |recipients| - 1
    ensures |occupied| == |suppliers| + |recipients| - 1 ||
      forall i, j :: 0 <= i < |suppliers| && 0 <= j < |recipients| ==> solution[i][j] != 0.0
    // the greedy part is the allocation the profit-driven rounds make
    ensures Greedy.GreedyAllocation(suppliers, recipients, profit, greedy)
  {
    var initial;
    initial, greedy, occupied := Greedy.SolveMaximumProfitMethod(suppliers, recipients, profit);
    solution := Modi.OptimizeWithMODI(initial, profit);
    Modi.OptimizeReturnsInput(initial, profit);
  }
}
