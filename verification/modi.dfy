/** The MODI optimizer: dual potentials over the basic cells, the entering
    cell of greatest opportunity, the stepping-stone search for a closed
    path, the step size theta and the reallocation along the path, and the
    loop that strings them together under an iteration cap. */
module Modi {
  import opened Entities

  /** Opportunities at or below this are no improvement; it is also the
      bound under which a cell counts as non-basic for entering. */
  const ImprovementThreshold: real := 0.001
  const MaxIterations: nat := 100
  const MaxPropagationPasses: nat := 200
  /** A search path longer than this is abandoned. */
  const MaxPathLength: nat := 20

  /** The allocation and the profit matrix share one m-by-n shape, m >= 1
      (optimizeWithMODI reads n off the first row). */
  predicate Grid(solution: seq<seq<real>>, profit: seq<seq<real>>) {
    |solution| > 0 &&
    IsMatrix(solution, |solution|, |solution[0]|) &&
    IsMatrix(profit, |solution|, |solution[0]|)
  }

  function Width(solution: seq<seq<real>>): nat
    requires |solution| > 0
  {
    |solution[0]|
  }

  // ------------------------------------------------------------ basic cells

  /** Cells (i, j') with j' < j holding more than Epsilon, left to right. */
  function RowBasicCells(solution: seq<seq<real>>, i: nat, j: nat): seq<Cell>
    requires i < |solution| && j <= |solution[i]|
  {
    if j == 0 then []
    else RowBasicCells(solution, i, j - 1) + (if solution[i][j - 1] > Epsilon then [Cell(i, j - 1)] else [])
  }

  lemma {:induction false} RowBasicCellsMembers(solution: seq<seq<real>>, i: nat, j: nat)
    requires i < |solution| && j <= |solution[i]|
    ensures forall c :: c in RowBasicCells(solution, i, j) <==> c.i == i && c.j < j && solution[i][c.j] > Epsilon
  {
    if j > 0 {
      RowBasicCellsMembers(solution, i, j - 1);
    }
  }

  /** Cells of rows below k holding more than Epsilon, in row-major order. */
  function BasicCellsOfRows(solution: seq<seq<real>>, n: nat, k: nat): seq<Cell>
    requires IsMatrix(solution, |solution|, n) && k <= |solution|
  {
    if k == 0 then []
    else BasicCellsOfRows(solution, n, k - 1) + RowBasicCells(solution, k - 1, n)
  }

  lemma {:induction false} BasicCellsOfRowsMembers(solution: seq<seq<real>>, n: nat, k: nat)
    requires IsMatrix(solution, |solution|, n) && k <= |solution|
    ensures forall c :: c in BasicCellsOfRows(solution, n, k) <==> c.i < k && c.j < n && solution[c.i][c.j] > Epsilon
  {
    if k > 0 {
      BasicCellsOfRowsMembers(solution, n, k - 1);
      RowBasicCellsMembers(solution, k - 1, n);
    }
  }

  /** The basic cells: those holding strictly more than Epsilon, in
      row-major order. An epsilon cell of the degeneracy repair holds
      exactly Epsilon, so it is never one of them. */
  function BasicCells(solution: seq<seq<real>>): (r: seq<Cell>)
    requires |solution| > 0 && IsMatrix(solution, |solution|, Width(solution))
    ensures forall c :: c in r <==> InBounds(c, |solution|, Width(solution)) && solution[c.i][c.j] > Epsilon
  {
    BasicCellsOfRowsMembers(solution, Width(solution), |solution|);
    BasicCellsOfRows(solution, Width(solution), |solution|)
  }

  /** Two allocations with the same cells above Epsilon have the same basic
      cells, in the same order. */
  lemma {:induction false} SameBasicCells(a: seq<seq<real>>, b: seq<seq<real>>, n: nat, k: nat)
    requires IsMatrix(a, |a|, n) && IsMatrix(b, |a|, n) && k <= |a|
    requires forall i, j :: 0 <= i < |a| && 0 <= j < n ==> (a[i][j] > Epsilon <==> b[i][j] > Epsilon)
    ensures BasicCellsOfRows(a, n, k) == BasicCellsOfRows(b, n, k)
  {
    if k > 0 {
      SameBasicCells(a, b, n, k - 1);
      SameRowBasicCells(a, b, k - 1, n);
    }
  }

  lemma {:induction false} SameRowBasicCells(a: seq<seq<real>>, b: seq<seq<real>>, i: nat, j: nat)
    requires i < |a| && i < |b| && j <= |a[i]| && j <= |b[i]|
    requires forall j' :: 0 <= j' < j ==> (a[i][j'] > Epsilon <==> b[i][j'] > Epsilon)
    ensures RowBasicCells(a, i, j) == RowBasicCells(b, i, j)
  {
    if j > 0 {
      SameRowBasicCells(a, b, i, j - 1);
    }
  }

  // ------------------------------------------------------- dual potentials

  /** Potentials being propagated; None is calculateDualVariables' NaN, "not known yet". */
  datatype Potentials = Potentials(u: seq<Option<real>>, v: seq<Option<real>>)

  datatype Duals = Duals(u: seq<real>, v: seq<real>)

  predicate Fits(basic: seq<Cell>, profit: seq<seq<real>>, pot: Potentials) {
    IsMatrix(profit, |pot.u|, |pot.v|) &&
    forall k :: 0 <= k < |basic| ==> InBounds(basic[k], |pot.u|, |pot.v|)
  }

  /** Known values never change; unknown ones may become known. */
  predicate Grows(pot: Potentials, pot': Potentials) {
    |pot'.u| == |pot.u| && |pot'.v| == |pot.v| &&
    (forall i :: 0 <= i < |pot.u| && pot.u[i].Some? ==> pot'.u[i] == pot.u[i]) &&
    (forall j :: 0 <= j < |pot.v| && pot.v[j].Some? ==> pot'.v[j] == pot.v[j])
  }

  /** Both potentials of cell c are known and u[i] + v[j] == profit[i][j]. */
  predicate Satisfied(profit: seq<seq<real>>, pot: Potentials, c: Cell) {
    c.i < |pot.u| && c.j < |pot.v| && c.i < |profit| && c.j < |profit[c.i]| &&
    pot.u[c.i].Some? && pot.v[c.j].Some? &&
    pot.u[c.i].value + pot.v[c.j].value == profit[c.i][c.j]
  }

  /** Every known potential except u[0] is pinned by a satisfied basic cell
      of its row or column. */
  ghost predicate Explained(basic: seq<Cell>, profit: seq<seq<real>>, pot: Potentials) {
    (forall i :: 0 < i < |pot.u| && pot.u[i].Some? ==> RowExplained(basic, profit, pot, i)) &&
    (forall j :: 0 <= j < |pot.v| && pot.v[j].Some? ==> ColumnExplained(basic, profit, pot, j))
  }

  ghost predicate RowExplained(basic: seq<Cell>, profit: seq<seq<real>>, pot: Potentials, i: nat) {
    exists c :: c in basic && c.i == i && Satisfied(profit, pot, c)
  }

  ghost predicate ColumnExplained(basic: seq<Cell>, profit: seq<seq<real>>, pot: Potentials, j: nat) {
    exists c :: c in basic && c.j == j && Satisfied(profit, pot, c)
  }

  lemma GrowsKeepsSatisfied(profit: seq<seq<real>>, pot: Potentials, pot': Potentials, c: Cell)
    requires Grows(pot, pot') && Satisfied(profit, pot, c)
    ensures Satisfied(profit, pot', c)
  {
  }

  /** One basic cell's turn in a pass: if exactly one of its potentials is
      known, the other one is derived from it. */
  function PropagateCell(profit: seq<seq<real>>, pot: Potentials, c: Cell): (r: (Potentials, bool))
    requires IsMatrix(profit, |pot.u|, |pot.v|) && InBounds(c, |pot.u|, |pot.v|)
    ensures Grows(pot, r.0)
    ensures r.1 <==> (pot.u[c.i].Some? != pot.v[c.j].Some?)
    ensures !r.1 ==> r.0 == pot
    ensures r.1 ==> Satisfied(profit, r.0, c)
    ensures forall i :: 0 <= i < |pot.u| && i != c.i ==> r.0.u[i] == pot.u[i]
    ensures forall j :: 0 <= j < |pot.v| && j != c.j ==> r.0.v[j] == pot.v[j]
  {
    if pot.u[c.i].Some? && pot.v[c.j].None? then
      (Potentials(pot.u, pot.v[c.j := Some(profit[c.i][c.j] - pot.u[c.i].value)]), true)
    else if pot.u[c.i].None? && pot.v[c.j].Some? then
      (Potentials(pot.u[c.i := Some(profit[c.i][c.j] - pot.v[c.j].value)], pot.v), true)
    else
      (pot, false)
  }

  lemma PropagateCellExplained(basic: seq<Cell>, profit: seq<seq<real>>, pot: Potentials, c: Cell)
    requires IsMatrix(profit, |pot.u|, |pot.v|) && InBounds(c, |pot.u|, |pot.v|)
    requires c in basic
    requires Explained(basic, profit, pot)
    ensures Explained(basic, profit, PropagateCell(profit, pot, c).0)
  {
    var pot' := PropagateCell(profit, pot, c).0;
    forall i | 0 < i < |pot'.u| && pot'.u[i].Some?
      ensures RowExplained(basic, profit, pot', i)
    {
      if pot.u[i].Some? {
        var w :| w in basic && w.i == i && Satisfied(profit, pot, w);
        GrowsKeepsSatisfied(profit, pot, pot', w);
      } else {
        assert Satisfied(profit, pot', c);
      }
    }
    forall j | 0 <= j < |pot'.v| && pot'.v[j].Some?
      ensures ColumnExplained(basic, profit, pot', j)
    {
      if pot.v[j].Some? {
        var w :| w in basic && w.j == j && Satisfied(profit, pot, w);
        GrowsKeepsSatisfied(profit, pot, pot', w);
      } else {
        assert Satisfied(profit, pot', c);
      }
    }
  }

  /** One propagation pass over basic[k..], in order; `changed` records
      whether any potential was derived. */
  function PropagationPass(basic: seq<Cell>, profit: seq<seq<real>>, pot: Potentials, k: nat, changed: bool): (r: (Potentials, bool))
    requires Fits(basic, profit, pot) && k <= |basic|
    ensures Grows(pot, r.0) && Fits(basic, profit, r.0)
    ensures changed ==> r.1
    ensures !r.1 ==> r.0 == pot
    decreases |basic| - k
  {
    if k == |basic| then (pot, changed)
    else
      var step := PropagateCell(profit, pot, basic[k]);
      PropagationPass(basic, profit, step.0, k + 1, changed || step.1)
  }

  /** A pass keeps every known potential explained by a satisfied basic
      cell of its row or column. */
  lemma {:induction false} PassExplained(basic: seq<Cell>, profit: seq<seq<real>>, pot: Potentials, k: nat, changed: bool)
    requires Fits(basic, profit, pot) && k <= |basic|
    requires Explained(basic, profit, pot)
    ensures Explained(basic, profit, PropagationPass(basic, profit, pot, k, changed).0)
    decreases |basic| - k
  {
    if k < |basic| {
      var step := PropagateCell(profit, pot, basic[k]);
      PropagateCellExplained(basic, profit, pot, basic[k]);
      PassExplained(basic, profit, step.0, k + 1, changed || step.1);
    }
  }

  /** Passes repeat while the last one derived something, at most
      MaxPropagationPasses times. */
  function PropagationLoop(basic: seq<Cell>, profit: seq<seq<real>>, pot: Potentials, changed: bool, passes: nat): (r: Potentials)
    requires Fits(basic, profit, pot) && passes <= MaxPropagationPasses
    ensures Grows(pot, r) && Fits(basic, profit, r)
    decreases MaxPropagationPasses - passes
  {
    if changed && passes < MaxPropagationPasses then
      var pass := PropagationPass(basic, profit, pot, 0, false);
      PropagationLoop(basic, profit, pass.0, pass.1, passes + 1)
    else pot
  }

  /** Repeated passes keep every known potential explained. */
  lemma {:induction false} LoopExplained(basic: seq<Cell>, profit: seq<seq<real>>, pot: Potentials, changed: bool, passes: nat)
    requires Fits(basic, profit, pot) && passes <= MaxPropagationPasses
    requires Explained(basic, profit, pot)
    ensures Explained(basic, profit, PropagationLoop(basic, profit, pot, changed, passes))
    decreases MaxPropagationPasses - passes, 1
  {
    if changed && passes < MaxPropagationPasses {
      ExplainedAfterPass(basic, profit, pot, passes);
    }
  }

  /** The step of LoopExplained: one more pass, then the rest of the loop. */
  lemma {:induction false} ExplainedAfterPass(basic: seq<Cell>, profit: seq<seq<real>>, pot: Potentials, passes: nat)
    requires Fits(basic, profit, pot) && passes < MaxPropagationPasses
    requires Explained(basic, profit, pot)
    ensures Explained(basic, profit, PropagationLoop(basic, profit, pot, true, passes))
    decreases MaxPropagationPasses - passes, 0
  {
    var pass := PropagationPass(basic, profit, pot, 0, false);
    PassExplained(basic, profit, pot, 0, false);
    LoopExplained(basic, profit, pass.0, pass.1, passes + 1);
  }


  /** How many entries are known. */
  function KnownCount(s: seq<Option<real>>): (r: nat)
    ensures r <= |s|
  {
    if s == [] then 0 else (if s[0].Some? then 1 else 0) + KnownCount(s[1..])
  }

  /** How many potentials are known. */
  function Known(pot: Potentials): nat {
    KnownCount(pot.u) + KnownCount(pot.v)
  }

  /** Knowing more entries never lowers the count, and a newly known entry
      raises it. */
  lemma {:induction false} KnownCountGrows(s: seq<Option<real>>, s': seq<Option<real>>)
    requires |s'| == |s|
    requires forall k :: 0 <= k < |s| && s[k].Some? ==> s'[k].Some?
    ensures KnownCount(s) <= KnownCount(s')
    ensures (exists k :: 0 <= k < |s| && s[k].None? && s'[k].Some?) ==> KnownCount(s) < KnownCount(s')
  {
    if |s| > 0 {
      KnownCountGrows(s[1..], s'[1..]);
      if exists k :: 0 <= k < |s| && s[k].None? && s'[k].Some? {
        var k :| 0 <= k < |s| && s[k].None? && s'[k].Some?;
        if k > 0 {
          assert s[1..][k - 1].None? && s'[1..][k - 1].Some?;
        }
      }
    }
  }

  lemma PropagateCellCounts(profit: seq<seq<real>>, pot: Potentials, c: Cell)
    requires IsMatrix(profit, |pot.u|, |pot.v|) && InBounds(c, |pot.u|, |pot.v|)
    ensures var r := PropagateCell(profit, pot, c);
      Known(pot) <= Known(r.0) && (r.1 ==> Known(pot) < Known(r.0))
  {
    var r := PropagateCell(profit, pot, c);
    if pot.u[c.i].Some? && pot.v[c.j].None? {
      assert r.0.v[c.j].Some?;
    } else if pot.u[c.i].None? && pot.v[c.j].Some? {
      assert r.0.u[c.i].Some?;
    }
    KnownCountGrows(pot.u, r.0.u);
    KnownCountGrows(pot.v, r.0.v);
  }

  /** Both potentials of cell c are known, or neither is: the cell derives
      nothing. */
  predicate Settled(pot: Potentials, c: Cell) {
    c.i < |pot.u| && c.j < |pot.v| && (pot.u[c.i].Some? <==> pot.v[c.j].Some?)
  }

  /** A fixpoint of propagation: no basic cell derives anything. */
  predicate Stable(basic: seq<Cell>, pot: Potentials) {
    forall t :: 0 <= t < |basic| ==> Settled(pot, basic[t])
  }

  /** A pass never forgets, and one that derives something knows more. */
  lemma {:induction false} PassKnowsMore(basic: seq<Cell>, profit: seq<seq<real>>, pot: Potentials, k: nat, changed: bool)
    requires Fits(basic, profit, pot) && k <= |basic|
    ensures var r := PropagationPass(basic, profit, pot, k, changed);
      Known(pot) <= Known(r.0) && (r.1 && !changed ==> Known(pot) < Known(r.0))
    decreases |basic| - k
  {
    if k < |basic| {
      var step := PropagateCell(profit, pot, basic[k]);
      PropagateCellCounts(profit, pot, basic[k]);
      PassKnowsMore(basic, profit, step.0, k + 1, changed || step.1);
    }
  }

  /** A pass that derives nothing found every cell it visited settled. */
  lemma {:induction false} PassSettles(basic: seq<Cell>, profit: seq<seq<real>>, pot: Potentials, k: nat, changed: bool)
    requires Fits(basic, profit, pot) && k <= |basic|
    ensures !PropagationPass(basic, profit, pot, k, changed).1 ==>
      forall t :: k <= t < |basic| ==> Settled(pot, basic[t])
    decreases |basic| - k
  {
    if k < |basic| {
      var step := PropagateCell(profit, pot, basic[k]);
      var rest := PropagationPass(basic, profit, step.0, k + 1, changed || step.1);
      assert PropagationPass(basic, profit, pot, k, changed) == rest;
      if !rest.1 {
        PassSettles(basic, profit, step.0, k + 1, changed || step.1);
        assert step.0 == pot;
        assert Settled(pot, basic[k]);
      }
    }
  }

  /** While fewer potentials are known than passes remain, the loop cannot
      hit its cap before a pass derives nothing, so it ends at a fixpoint. */
  lemma {:induction false} LoopSettles(basic: seq<Cell>, profit: seq<seq<real>>, pot: Potentials, changed: bool, passes: nat)
    requires Fits(basic, profit, pot) && passes <= MaxPropagationPasses
    requires !changed ==> Stable(basic, pot)
    requires changed ==> Known(pot) + (MaxPropagationPasses - passes) > |pot.u| + |pot.v|
    ensures Stable(basic, PropagationLoop(basic, profit, pot, changed, passes))
    decreases MaxPropagationPasses - passes, 1
  {
    if changed {
      SettlesAfterPass(basic, profit, pot, passes);
    }
  }

  /** The step of LoopSettles: one more pass, then the rest of the loop. */
  lemma {:induction false} SettlesAfterPass(basic: seq<Cell>, profit: seq<seq<real>>, pot: Potentials, passes: nat)
    requires Fits(basic, profit, pot) && passes <= MaxPropagationPasses
    requires Known(pot) + (MaxPropagationPasses - passes) > |pot.u| + |pot.v|
    ensures passes < MaxPropagationPasses
    ensures Stable(basic, PropagationLoop(basic, profit, pot, true, passes))
    decreases MaxPropagationPasses - passes, 0
  {
    var pass := PropagationPass(basic, profit, pot, 0, false);
    assert !pass.1 ==> Stable(basic, pass.0) by {
      PassSettles(basic, profit, pot, 0, false);
    }
    assert pass.1 ==> Known(pass.0) + (MaxPropagationPasses - (passes + 1)) > |pass.0.u| + |pass.0.v| by {
      PassKnowsMore(basic, profit, pot, 0, false);
    }
    LoopSettles(basic, profit, pass.0, pass.1, passes + 1);
  }

  /** Known row potentials lie in R and known column potentials in C. */
  predicate Within(pot: Potentials, rows: set<nat>, cols: set<nat>) {
    (forall i :: 0 <= i < |pot.u| && pot.u[i].Some? ==> i in rows) &&
    (forall j :: 0 <= j < |pot.v| && pot.v[j].Some? ==> j in cols)
  }

  /** No basic cell joins a row of R to a column outside C, or the other
      way round. */
  predicate Respects(basic: seq<Cell>, rows: set<nat>, cols: set<nat>) {
    forall t :: 0 <= t < |basic| ==> (basic[t].i in rows <==> basic[t].j in cols)
  }

  lemma {:induction false} PassWithin(basic: seq<Cell>, profit: seq<seq<real>>, pot: Potentials, k: nat, changed: bool,
                                     rows: set<nat>, cols: set<nat>)
    requires Fits(basic, profit, pot) && k <= |basic|
    requires Respects(basic, rows, cols) && Within(pot, rows, cols)
    ensures Within(PropagationPass(basic, profit, pot, k, changed).0, rows, cols)
    decreases |basic| - k
  {
    if k < |basic| {
      var step := PropagateCell(profit, pot, basic[k]);
      PassWithin(basic, profit, step.0, k + 1, changed || step.1, rows, cols);
    }
  }

  /** Propagation never crosses a cut. */
  lemma {:induction false} LoopWithin(basic: seq<Cell>, profit: seq<seq<real>>, pot: Potentials, changed: bool, passes: nat,
                                     rows: set<nat>, cols: set<nat>)
    requires Fits(basic, profit, pot) && passes <= MaxPropagationPasses
    requires Respects(basic, rows, cols) && Within(pot, rows, cols)
    ensures Within(PropagationLoop(basic, profit, pot, changed, passes), rows, cols)
    decreases MaxPropagationPasses - passes, 1
  {
    if changed && passes < MaxPropagationPasses {
      WithinAfterPass(basic, profit, pot, passes, rows, cols);
    }
  }

  /** The step of LoopWithin: one more pass, then the rest of the loop. */
  lemma {:induction false} WithinAfterPass(basic: seq<Cell>, profit: seq<seq<real>>, pot: Potentials, passes: nat,
                                          rows: set<nat>, cols: set<nat>)
    requires Fits(basic, profit, pot) && passes < MaxPropagationPasses
    requires Respects(basic, rows, cols) && Within(pot, rows, cols)
    ensures Within(PropagationLoop(basic, profit, pot, true, passes), rows, cols)
    decreases MaxPropagationPasses - passes, 0
  {
    var pass := PropagationPass(basic, profit, pot, 0, false);
    PassWithin(basic, profit, pot, 0, false, rows, cols);
    LoopWithin(basic, profit, pass.0, pass.1, passes + 1, rows, cols);
  }


  /** How many entries of basic[k..] are satisfied. */
  function SatisfiedCount(basic: seq<Cell>, profit: seq<seq<real>>, pot: Potentials, k: nat): (r: nat)
    requires k <= |basic|
    decreases |basic| - k
  {
    if k == |basic| then 0
    else (if Satisfied(profit, pot, basic[k]) then 1 else 0) + SatisfiedCount(basic, profit, pot, k + 1)
  }

  /** Satisfied entries stay satisfied as potentials grow, and a newly
      satisfied entry raises the count. */
  lemma {:induction false} SatisfiedCountGrows(basic: seq<Cell>, profit: seq<seq<real>>, pot: Potentials, pot': Potentials,
                                              k: nat, t: nat)
    requires Grows(pot, pot') && k <= |basic|
    ensures SatisfiedCount(basic, profit, pot, k) <= SatisfiedCount(basic, profit, pot', k)
    ensures k <= t < |basic| && !Satisfied(profit, pot, basic[t]) && Satisfied(profit, pot', basic[t]) ==>
      SatisfiedCount(basic, profit, pot, k) < SatisfiedCount(basic, profit, pot', k)
    decreases |basic| - k
  {
    if k < |basic| {
      SatisfiedCountGrows(basic, profit, pot, pot', k + 1, t);
      if Satisfied(profit, pot, basic[k]) {
        GrowsKeepsSatisfied(profit, pot, pot', basic[k]);
      }
    }
  }

  /** A count equal to the number of entries means every entry is
      satisfied. */
  lemma {:induction false} FullCountSatisfiesAll(basic: seq<Cell>, profit: seq<seq<real>>, pot: Potentials, k: nat)
    requires k <= |basic|
    ensures SatisfiedCount(basic, profit, pot, k) <= |basic| - k
    ensures SatisfiedCount(basic, profit, pot, k) == |basic| - k ==>
      forall t :: k <= t < |basic| ==> Satisfied(profit, pot, basic[t])
    decreases |basic| - k
  {
    if k < |basic| {
      FullCountSatisfiesAll(basic, profit, pot, k + 1);
    }
  }

  /** Learning one entry raises the known count by exactly one. */
  lemma {:induction false} KnownCountLearns(s: seq<Option<real>>, k: nat, x: real)
    requires k < |s| && s[k].None?
    ensures KnownCount(s[k := Some(x)]) == KnownCount(s) + 1
  {
    if k == 0 {
      assert s[k := Some(x)][1..] == s[1..];
    } else {
      assert s[k := Some(x)][1..] == s[1..][k - 1 := Some(x)];
      KnownCountLearns(s[1..], k - 1, x);
    }
  }

  lemma {:induction false} KnownCountAll(s: seq<Option<real>>)
    requires AllKnown(s)
    ensures KnownCount(s) == |s|
  {
    if s != [] {
      KnownCountAll(s[1..]);
    }
  }

  lemma {:induction false} KnownCountNone(s: seq<Option<real>>)
    requires forall k :: 0 <= k < |s| ==> s[k].None?
    ensures KnownCount(s) == 0
  {
    if s != [] {
      KnownCountNone(s[1..]);
    }
  }

  /** Every known potential but u[0] is matched by its own satisfied basic
      cell: each derivation learns one potential and satisfies the cell it
      came from, which was unsatisfied before. */
  predicate Accounted(basic: seq<Cell>, profit: seq<seq<real>>, pot: Potentials) {
    Known(pot) <= SatisfiedCount(basic, profit, pot, 0) + 1
  }

  lemma PropagateCellAccounted(basic: seq<Cell>, profit: seq<seq<real>>, pot: Potentials, t: nat)
    requires IsMatrix(profit, |pot.u|, |pot.v|) && t < |basic| && InBounds(basic[t], |pot.u|, |pot.v|)
    requires Accounted(basic, profit, pot)
    ensures Accounted(basic, profit, PropagateCell(profit, pot, basic[t]).0)
  {
    var c := basic[t];
    var r := PropagateCell(profit, pot, c);
    if r.1 {
      if pot.u[c.i].Some? {
        KnownCountLearns(pot.v, c.j, profit[c.i][c.j] - pot.u[c.i].value);
      } else {
        KnownCountLearns(pot.u, c.i, profit[c.i][c.j] - pot.v[c.j].value);
      }
      SatisfiedCountGrows(basic, profit, pot, r.0, 0, t);
    }
  }

  lemma {:induction false} PassAccounted(basic: seq<Cell>, profit: seq<seq<real>>, pot: Potentials, k: nat, changed: bool)
    requires Fits(basic, profit, pot) && k <= |basic|
    requires Accounted(basic, profit, pot)
    ensures Accounted(basic, profit, PropagationPass(basic, profit, pot, k, changed).0)
    decreases |basic| - k
  {
    if k < |basic| {
      var step := PropagateCell(profit, pot, basic[k]);
      PropagateCellAccounted(basic, profit, pot, k);
      PassAccounted(basic, profit, step.0, k + 1, changed || step.1);
    }
  }

  /** Repeated passes keep every derived potential matched by a satisfied
      basic cell. */
  lemma {:induction false} LoopAccounted(basic: seq<Cell>, profit: seq<seq<real>>, pot: Potentials, changed: bool, passes: nat)
    requires Fits(basic, profit, pot) && passes <= MaxPropagationPasses
    requires Accounted(basic, profit, pot)
    ensures Accounted(basic, profit, PropagationLoop(basic, profit, pot, changed, passes))
    decreases MaxPropagationPasses - passes, 1
  {
    if changed && passes < MaxPropagationPasses {
      AccountedAfterPass(basic, profit, pot, passes);
    }
  }

  /** The step of LoopAccounted: one more pass, then the rest of the loop. */
  lemma {:induction false} AccountedAfterPass(basic: seq<Cell>, profit: seq<seq<real>>, pot: Potentials, passes: nat)
    requires Fits(basic, profit, pot) && passes < MaxPropagationPasses
    requires Accounted(basic, profit, pot)
    ensures Accounted(basic, profit, PropagationLoop(basic, profit, pot, true, passes))
    decreases MaxPropagationPasses - passes, 0
  {
    var pass := PropagationPass(basic, profit, pot, 0, false);
    PassAccounted(basic, profit, pot, 0, false);
    LoopAccounted(basic, profit, pass.0, pass.1, passes + 1);
  }

  /** With every potential known and one basic cell fewer than potentials,
      the counting leaves no basic cell unsatisfied. */
  lemma SpanningBasisSatisfied(basic: seq<Cell>, profit: seq<seq<real>>, pot: Potentials)
    requires Accounted(basic, profit, pot) && AllKnown(pot.u) && AllKnown(pot.v)
    requires |basic| + 1 == |pot.u| + |pot.v|
    ensures forall t :: 0 <= t < |basic| ==> Satisfied(profit, pot, basic[t])
  {
    KnownCountAll(pot.u);
    KnownCountAll(pot.v);
    FullCountSatisfiesAll(basic, profit, pot, 0);
  }

  function InitialPotentials(m: nat, n: nat): (pot: Potentials)
    requires m > 0
    ensures |pot.u| == m && |pot.v| == n && pot.u[0] == Some(0.0)
    ensures forall i :: 0 < i < m ==> pot.u[i].None?
    ensures forall j :: 0 <= j < n ==> pot.v[j].None?
  {
    Potentials(seq(m, i => if i == 0 then Some(0.0) else None), seq(n, _ => None))
  }

  /** The potentials after propagation from u[0] = 0. */
  function Propagated(solution: seq<seq<real>>, profit: seq<seq<real>>): (pot: Potentials)
    requires Grid(solution, profit)
    ensures |pot.u| == |solution| && |pot.v| == Width(solution) && pot.u[0] == Some(0.0)
    ensures Explained(BasicCells(solution), profit, pot)
    ensures Accounted(BasicCells(solution), profit, pot)
  {
    var basic := BasicCells(solution);
    var init := InitialPotentials(|solution|, Width(solution));
    LoopExplained(basic, profit, init, true, 0);
    assert Accounted(basic, profit, init) by {
      KnownCountNone(init.u[1..]);
      KnownCountNone(init.v);
    }
    LoopAccounted(basic, profit, init, true, 0);
    PropagationLoop(basic, profit, init, true, 0)
  }

  /** Rows R (holding row 0) and columns C that no basic cell connects to
      the rest, and that leave some row or column out. */
  ghost predicate Cut(solution: seq<seq<real>>, rows: set<nat>, cols: set<nat>)
    requires |solution| > 0 && IsMatrix(solution, |solution|, Width(solution))
  {
    0 in rows &&
    ((exists i :: 0 <= i < |solution| && i !in rows) || (exists j :: 0 <= j < Width(solution) && j !in cols)) &&
    forall i, j :: 0 <= i < |solution| && 0 <= j < Width(solution) && solution[i][j] > Epsilon ==>
      (i in rows <==> j in cols)
  }

  /** The basic cells do not connect every row and column to row 0. */
  ghost predicate Disconnected(solution: seq<seq<real>>)
    requires |solution| > 0 && IsMatrix(solution, |solution|, Width(solution))
  {
    exists rows: set<nat>, cols: set<nat> :: Cut(solution, rows, cols)
  }

  /** Propagation leaves a potential unknown exactly when the basis is
      disconnected; the "if" direction needs the pass cap not to bite,
      which m + n <= 200 ensures. */
  lemma PropagationCertificate(solution: seq<seq<real>>, profit: seq<seq<real>>)
    requires Grid(solution, profit)
    ensures var pot := Propagated(solution, profit);
      (Disconnected(solution) ==> !(AllKnown(pot.u) && AllKnown(pot.v))) &&
      (!(AllKnown(pot.u) && AllKnown(pot.v)) && |solution| + Width(solution) <= MaxPropagationPasses ==>
         Disconnected(solution))
  {
    var pot := Propagated(solution, profit);
    if Disconnected(solution) {
      CutBlocksPropagation(solution, profit);
    }
    if !(AllKnown(pot.u) && AllKnown(pot.v)) && |solution| + Width(solution) <= MaxPropagationPasses {
      UnknownGivesCut(solution, profit);
    }
  }

  lemma CutBlocksPropagation(solution: seq<seq<real>>, profit: seq<seq<real>>)
    requires Grid(solution, profit) && Disconnected(solution)
    ensures var pot := Propagated(solution, profit);
      !(AllKnown(pot.u) && AllKnown(pot.v))
  {
    var m, n := |solution|, Width(solution);
    var rows, cols :| Cut(solution, rows, cols);
    var basic := BasicCells(solution);
    var init := InitialPotentials(m, n);
    CutRespected(solution, rows, cols);
    assert Fits(basic, profit, init);
    assert Within(init, rows, cols);
    LoopWithin(basic, profit, init, true, 0, rows, cols);
    var pot := Propagated(solution, profit);
    assert pot == PropagationLoop(basic, profit, init, true, 0);
    CutLeavesUnknown(solution, pot, rows, cols);
  }

  /** Potentials confined to a cut leave the rows or columns outside it
      unknown. */
  lemma CutLeavesUnknown(solution: seq<seq<real>>, pot: Potentials, rows: set<nat>, cols: set<nat>)
    requires |solution| > 0 && IsMatrix(solution, |solution|, Width(solution))
    requires |pot.u| == |solution| && |pot.v| == Width(solution)
    requires Cut(solution, rows, cols) && Within(pot, rows, cols)
    ensures !(AllKnown(pot.u) && AllKnown(pot.v))
  {
    if exists i :: 0 <= i < |solution| && i !in rows {
      var i :| 0 <= i < |solution| && i !in rows;
      assert pot.u[i].None?;
    } else {
      var j :| 0 <= j < Width(solution) && j !in cols;
      assert pot.v[j].None?;
    }
  }

  /** No basic cell crosses a cut. */
  lemma CutRespected(solution: seq<seq<real>>, rows: set<nat>, cols: set<nat>)
    requires |solution| > 0 && IsMatrix(solution, |solution|, Width(solution))
    requires Cut(solution, rows, cols)
    ensures Respects(BasicCells(solution), rows, cols)
  {
    var basic := BasicCells(solution);
    forall t | 0 <= t < |basic|
      ensures basic[t].i in rows <==> basic[t].j in cols
    {
      assert basic[t] in basic;
    }
  }

  lemma UnknownGivesCut(solution: seq<seq<real>>, profit: seq<seq<real>>)
    requires Grid(solution, profit) && |solution| + Width(solution) <= MaxPropagationPasses
    requires var pot := Propagated(solution, profit); !(AllKnown(pot.u) && AllKnown(pot.v))
    ensures Disconnected(solution)
  {
    var basic := BasicCells(solution);
    var init := InitialPotentials(|solution|, Width(solution));
    assert KnownCount(init.u) >= 1;
    assert Fits(basic, profit, init);
    LoopSettles(basic, profit, init, true, 0);
    var pot := Propagated(solution, profit);
    assert pot == PropagationLoop(basic, profit, init, true, 0);
    StableGivesCut(solution, pot);
  }

  /** At a fixpoint that leaves a potential unknown, the known rows and
      columns form a cut. */
  lemma StableGivesCut(solution: seq<seq<real>>, pot: Potentials)
    requires |solution| > 0 && IsMatrix(solution, |solution|, Width(solution))
    requires |pot.u| == |solution| && |pot.v| == Width(solution) && pot.u[0].Some?
    requires Stable(BasicCells(solution), pot)
    requires !(AllKnown(pot.u) && AllKnown(pot.v))
    ensures Disconnected(solution)
  {
    var m, n := |solution|, Width(solution);
    var basic := BasicCells(solution);
    var rows := set i | 0 <= i < m && pot.u[i].Some?;
    var cols := set j | 0 <= j < n && pot.v[j].Some?;
    if !AllKnown(pot.u) {
      var i :| 0 <= i < m && pot.u[i].None?;
      assert i !in rows;
    } else {
      var j :| 0 <= j < n && pot.v[j].None?;
      assert j !in cols;
    }
    forall i, j | 0 <= i < m && 0 <= j < n && solution[i][j] > Epsilon
      ensures i in rows <==> j in cols
    {
      assert Cell(i, j) in basic;
      var t :| 0 <= t < |basic| && basic[t] == Cell(i, j);
      assert Settled(pot, basic[t]);
    }
    assert Cut(solution, rows, cols);
  }

  predicate AllKnown(s: seq<Option<real>>) {
    forall k :: 0 <= k < |s| ==> s[k].Some?
  }

  function Values(s: seq<Option<real>>): (r: seq<real>)
    requires AllKnown(s)
    ensures |r| == |s| && forall k :: 0 <= k < |s| ==> Some(r[k]) == s[k]
  {
    seq(|s|, k requires 0 <= k < |s| => s[k].value)
  }

  /** The row (or column) of a basic cell pins the potentials of the
      duals: u[i] + v[j] == profit[i][j] there. */
  predicate Pinned(solution: seq<seq<real>>, profit: seq<seq<real>>, d: Duals, i: nat, j: nat)
    requires Grid(solution, profit) && |d.u| == |solution| && |d.v| == Width(solution)
  {
    i < |solution| && j < Width(solution) && solution[i][j] > Epsilon && d.u[i] + d.v[j] == profit[i][j]
  }

  ghost predicate RowPinned(solution: seq<seq<real>>, profit: seq<seq<real>>, d: Duals, i: nat)
    requires Grid(solution, profit) && |d.u| == |solution| && |d.v| == Width(solution)
  {
    exists j :: Pinned(solution, profit, d, i, j)
  }

  ghost predicate ColumnPinned(solution: seq<seq<real>>, profit: seq<seq<real>>, d: Duals, j: nat)
    requires Grid(solution, profit) && |d.u| == |solution| && |d.v| == Width(solution)
  {
    exists i :: Pinned(solution, profit, d, i, j)
  }

  /** Turns the propagated potentials into duals, given they are all known. */
  function ToDuals(solution: seq<seq<real>>, profit: seq<seq<real>>, pot: Potentials): (d: Duals)
    requires Grid(solution, profit) && AllKnown(pot.u) && AllKnown(pot.v)
    requires |pot.u| == |solution| && |pot.v| == Width(solution) && pot.u[0] == Some(0.0)
    requires Explained(BasicCells(solution), profit, pot)
    ensures |d.u| == |solution| && |d.v| == Width(solution) && d.u[0] == 0.0
    ensures forall i :: 0 <= i < |solution| ==> pot.u[i] == Some(d.u[i])
    ensures forall j :: 0 <= j < Width(solution) ==> pot.v[j] == Some(d.v[j])
    ensures forall i :: 0 < i < |solution| ==> RowPinned(solution, profit, d, i)
    ensures forall j :: 0 <= j < Width(solution) ==> ColumnPinned(solution, profit, d, j)
  {
    var d := Duals(Values(pot.u), Values(pot.v));
    var basic := BasicCells(solution);
    assert forall i :: 0 < i < |solution| ==> RowPinned(solution, profit, d, i) by {
      forall i | 0 < i < |solution|
        ensures RowPinned(solution, profit, d, i)
      {
        assert pot.u[i].Some?;
        var c :| c in basic && c.i == i && Satisfied(profit, pot, c);
        assert Pinned(solution, profit, d, i, c.j);
      }
    }
    assert forall j :: 0 <= j < Width(solution) ==> ColumnPinned(solution, profit, d, j) by {
      forall j | 0 <= j < Width(solution)
        ensures ColumnPinned(solution, profit, d, j)
      {
        assert pot.v[j].Some?;
        var c :| c in basic && c.j == j && Satisfied(profit, pot, c);
        assert Pinned(solution, profit, d, c.i, j);
      }
    }
    d
  }

  /** On a basis of exactly m + n - 1 cells, the duals read off fully
      propagated potentials satisfy u[i] + v[j] == profit[i][j] at every
      basic cell. */
  lemma SpanningBasisPinned(solution: seq<seq<real>>, profit: seq<seq<real>>, pot: Potentials, d: Duals)
    requires Grid(solution, profit)
    requires |pot.u| == |d.u| == |solution| && |pot.v| == |d.v| == Width(solution)
    requires forall i :: 0 <= i < |solution| ==> pot.u[i] == Some(d.u[i])
    requires forall j :: 0 <= j < Width(solution) ==> pot.v[j] == Some(d.v[j])
    requires Accounted(BasicCells(solution), profit, pot)
    ensures |BasicCells(solution)| == |solution| + Width(solution) - 1 ==>
      forall i, j :: 0 <= i < |solution| && 0 <= j < Width(solution) && solution[i][j] > Epsilon ==>
        d.u[i] + d.v[j] == profit[i][j]
  {
    var basic := BasicCells(solution);
    if |basic| == |solution| + Width(solution) - 1 {
      assert AllKnown(pot.u) && AllKnown(pot.v);
      SpanningBasisSatisfied(basic, profit, pot);
      forall i, j | 0 <= i < |solution| && 0 <= j < Width(solution) && solution[i][j] > Epsilon
        ensures d.u[i] + d.v[j] == profit[i][j]
      {
        assert Cell(i, j) in basic;
        var t :| 0 <= t < |basic| && basic[t] == Cell(i, j);
        assert Satisfied(profit, pot, basic[t]);
      }
    }
  }

  /** Dual potentials u (rows) and v (columns) with u[0] = 0, or None when
      propagation leaves any of them undetermined (a disconnected basis).
      Every potential besides u[0] is pinned by a basic cell of its row or
      column: u[i] + v[j] == profit[i][j] there; on a basis of m + n - 1
      cells that holds at every basic cell. */
  function CalculateDualVariables(solution: seq<seq<real>>, profit: seq<seq<real>>): (r: Option<Duals>)
    requires Grid(solution, profit)
    ensures r.Some? ==> |r.value.u| == |solution| && |r.value.v| == Width(solution) && r.value.u[0] == 0.0
    ensures r.Some? ==> forall i :: 0 < i < |solution| ==> RowPinned(solution, profit, r.value, i)
    ensures r.Some? ==> forall j :: 0 <= j < Width(solution) ==> ColumnPinned(solution, profit, r.value, j)
    ensures r.Some? && |BasicCells(solution)| == |solution| + Width(solution) - 1 ==>
      forall i, j :: 0 <= i < |solution| && 0 <= j < Width(solution) && solution[i][j] > Epsilon ==>
        r.value.u[i] + r.value.v[j] == profit[i][j]
    // None is a disconnected basis; within the pass cap, always so
    ensures Disconnected(solution) ==> r.None?
    ensures r.None? && |solution| + Width(solution) <= MaxPropagationPasses ==> Disconnected(solution)
  {
    var pot := Propagated(solution, profit);
    PropagationCertificate(solution, profit);
    if AllKnown(pot.u) && AllKnown(pot.v) then
      var d := ToDuals(solution, profit, pot);
      SpanningBasisPinned(solution, profit, pot, d);
      Some(d)
    else None
  }

  /** The potentials depend on the allocation only through which cells
      exceed Epsilon: cells at or below it are invisible to them. */
  lemma DualsIgnoreCellsAtOrBelowEpsilon(a: seq<seq<real>>, b: seq<seq<real>>, profit: seq<seq<real>>)
    requires Grid(a, profit) && Grid(b, profit) && IsMatrix(b, |a|, Width(a))
    requires forall i, j :: 0 <= i < |a| && 0 <= j < Width(a) ==> (a[i][j] > Epsilon <==> b[i][j] > Epsilon)
    ensures CalculateDualVariables(a, profit) == CalculateDualVariables(b, profit)
  {
    SameBasicCells(a, b, Width(a), |a|);
  }

  // ---------------------------------------------------------- entering cell

  /** A cell the entering test considers: zero or below the threshold. */
  predicate NonBasic(solution: seq<seq<real>>, c: Cell)
    requires c.i < |solution| && c.j < |solution[c.i]|
  {
    solution[c.i][c.j] == 0.0 || solution[c.i][c.j] < ImprovementThreshold
  }

  function Opportunity(profit: seq<seq<real>>, d: Duals, c: Cell): real
    requires c.i < |profit| && c.j < |profit[c.i]| && c.i < |d.u| && c.j < |d.v|
  {
    profit[c.i][c.j] - d.u[c.i] - d.v[c.j]
  }

  /** All cells of an m-by-n grid, row by row. */
  function AllCells(m: nat, n: nat): (r: seq<Cell>)
    ensures forall c :: c in r <==> InBounds(c, m, n)
  {
    if m == 0 then []
    else
      var row := seq(n, j requires 0 <= j < n => Cell(m - 1, j));
      assert forall c :: InBounds(c, m, n) && c.i == m - 1 ==> row[c.j] == c;
      AllCells(m - 1, n) + row
  }

  datatype Entering = Entering(maxImprovement: real, cell: Option<Cell>)

  predicate EnteringFits(solution: seq<seq<real>>, profit: seq<seq<real>>, d: Duals, cells: seq<Cell>) {
    Grid(solution, profit) && |d.u| == |solution| && |d.v| == Width(solution) &&
    forall k :: 0 <= k < |cells| ==> InBounds(cells[k], |solution|, Width(solution))
  }

  /** A scan state: a chosen cell is non-basic with an opportunity above
      the threshold equal to the running maximum; none chosen means 0. */
  predicate EnteringSound(solution: seq<seq<real>>, profit: seq<seq<real>>, d: Duals, e: Entering)
    requires Grid(solution, profit) && |d.u| == |solution| && |d.v| == Width(solution)
  {
    match e.cell
    case None => e.maxImprovement == 0.0
    case Some(c) =>
      InBounds(c, |solution|, Width(solution)) && NonBasic(solution, c) &&
      Opportunity(profit, d, c) == e.maxImprovement && e.maxImprovement > ImprovementThreshold
  }

  /** The entering scan over cells[k..]: a non-basic cell replaces the
      current choice only when it beats the running maximum by more than
      the threshold. */
  function EnteringScan(solution: seq<seq<real>>, profit: seq<seq<real>>, d: Duals, cells: seq<Cell>, k: nat, acc: Entering): (r: Entering)
    requires EnteringFits(solution, profit, d, cells) && k <= |cells|
    requires EnteringSound(solution, profit, d, acc)
    ensures EnteringSound(solution, profit, d, r)
    ensures r.maxImprovement >= acc.maxImprovement
    ensures r.cell.None? ==> r == acc
    ensures forall k' :: k <= k' < |cells| && NonBasic(solution, cells[k']) ==>
      Opportunity(profit, d, cells[k']) <= r.maxImprovement + ImprovementThreshold
    decreases |cells| - k
  {
    if k == |cells| then acc
    else
      var c := cells[k];
      var acc' :=
        if NonBasic(solution, c) && Opportunity(profit, d, c) > acc.maxImprovement + ImprovementThreshold
        then Entering(Opportunity(profit, d, c), Some(c))
        else acc;
      EnteringScan(solution, profit, d, cells, k + 1, acc')
  }

  /** The entering cell of one MODI iteration. The optimality test: the
      improvement stays at or below the threshold exactly when no non-basic
      cell has an opportunity above it. */
  function FindEntering(solution: seq<seq<real>>, profit: seq<seq<real>>, d: Duals): (r: Entering)
    requires Grid(solution, profit) && |d.u| == |solution| && |d.v| == Width(solution)
    ensures r.maxImprovement > ImprovementThreshold ==>
      r.cell.Some? && InBounds(r.cell.value, |solution|, Width(solution)) &&
      NonBasic(solution, r.cell.value) && Opportunity(profit, d, r.cell.value) == r.maxImprovement
    ensures r.maxImprovement <= ImprovementThreshold <==>
      forall c :: InBounds(c, |solution|, Width(solution)) && NonBasic(solution, c) ==>
        Opportunity(profit, d, c) <= ImprovementThreshold
    // the choice is within the threshold of the best opportunity
    ensures forall c :: InBounds(c, |solution|, Width(solution)) && NonBasic(solution, c) ==>
      Opportunity(profit, d, c) <= r.maxImprovement + ImprovementThreshold
  {
    var cells := AllCells(|solution|, Width(solution));
    var r := EnteringScan(solution, profit, d, cells, 0, Entering(0.0, None));
    assert forall c :: InBounds(c, |solution|, Width(solution)) ==> exists k :: 0 <= k < |cells| && cells[k] == c;
    r
  }

  // -------------------------------------------------------- stepping stone

  predicate PathFits(solution: seq<seq<real>>, path: seq<Cell>) {
    |solution| > 0 && IsMatrix(solution, |solution|, Width(solution)) &&
    forall k :: 0 <= k < |path| ==> InBounds(path[k], |solution|, Width(solution))
  }

  /** The depth-first search for a closed path, from the last cell of
      `path`, moving along its row when `horizontal` and along its column
      otherwise, onto basic cells not already on the path. */
  function FindLoop(solution: seq<seq<real>>, start: Cell, path: seq<Cell>, horizontal: bool): (r: Option<seq<Cell>>)
    requires PathFits(solution, path) && 1 <= |path| <= MaxPathLength + 1
    ensures r.Some? ==> |path| <= |r.value| && r.value[..|path|] == path
    ensures r.Some? ==> |r.value| > 1 && r.value[|r.value| - 1] == start && PathFits(solution, r.value)
    decreases MaxPathLength + 1 - |path|, 1, 0
  {
    var current := path[|path| - 1];
    if |path| > 1 && current == start then Some(path)
    else if |path| > MaxPathLength then None
    else if horizontal then ScanRow(solution, start, path, 0)
    else ScanColumn(solution, start, path, 0)
  }

  function ScanRow(solution: seq<seq<real>>, start: Cell, path: seq<Cell>, j: nat): (r: Option<seq<Cell>>)
    requires PathFits(solution, path) && 1 <= |path| <= MaxPathLength
    ensures r.Some? ==> |path| <= |r.value| && r.value[..|path|] == path
    ensures r.Some? ==> |r.value| > 1 && r.value[|r.value| - 1] == start && PathFits(solution, r.value)
    decreases MaxPathLength + 1 - |path|, 0, Width(solution) - j
  {
    if j >= Width(solution) then None
    else
      var current := path[|path| - 1];
      var next := Cell(current.i, j);
      if j != current.j && solution[current.i][j] > Epsilon && next !in path then
        match FindLoop(solution, start, path + [next], false)
        case Some(found) =>
          assert found[..|path|] == (path + [next])[..|path|];
          Some(found)
        case None => ScanRow(solution, start, path, j + 1)
      else ScanRow(solution, start, path, j + 1)
  }

  function ScanColumn(solution: seq<seq<real>>, start: Cell, path: seq<Cell>, i: nat): (r: Option<seq<Cell>>)
    requires PathFits(solution, path) && 1 <= |path| <= MaxPathLength
    ensures r.Some? ==> |path| <= |r.value| && r.value[..|path|] == path
    ensures r.Some? ==> |r.value| > 1 && r.value[|r.value| - 1] == start && PathFits(solution, r.value)
    decreases MaxPathLength + 1 - |path|, 0, |solution| - i
  {
    if i >= |solution| then None
    else
      var current := path[|path| - 1];
      var next := Cell(i, current.j);
      if i != current.i && solution[i][current.j] > Epsilon && next !in path then
        match FindLoop(solution, start, path + [next], true)
        case Some(found) =>
          assert found[..|path|] == (path + [next])[..|path|];
          Some(found)
        case None => ScanColumn(solution, start, path, i + 1)
      else ScanColumn(solution, start, path, i + 1)
  }

  /** The stepping-stone path from the entering cell, or [] when none is
      found. A non-empty result would start and end at the entering cell. */
  function FindSteppingStone(solution: seq<seq<real>>, startI: nat, startJ: nat): (r: seq<Cell>)
    requires |solution| > 0 && IsMatrix(solution, |solution|, Width(solution))
    requires startI < |solution| && startJ < Width(solution)
    ensures r != [] ==> |r| > 1 && r[0] == Cell(startI, startJ) && r[|r| - 1] == Cell(startI, startJ)
    ensures forall k :: 0 <= k < |r| ==> InBounds(r[k], |solution|, Width(solution))
  {
    var start := Cell(startI, startJ);
    match FindLoop(solution, start, [start], true)
    case Some(loop) =>
      assert loop[..1] == [start];
      loop
    case None => []
  }

  /** The search never closes its path: the start cell is the path's first
      cell and a cell already on the path is never stepped onto again, so
      the closing test never succeeds and every branch returns None. */
  lemma {:induction false} FindLoopNeverCloses(solution: seq<seq<real>>, start: Cell, path: seq<Cell>, horizontal: bool)
    requires PathFits(solution, path) && 1 <= |path| <= MaxPathLength + 1
    requires path[0] == start && (|path| == 1 || path[|path| - 1] != start)
    ensures FindLoop(solution, start, path, horizontal) == None
    decreases MaxPathLength + 1 - |path|, 1, 0
  {
    if |path| <= MaxPathLength {
      if horizontal {
        ScanRowNeverCloses(solution, start, path, 0);
      } else {
        ScanColumnNeverCloses(solution, start, path, 0);
      }
    }
  }

  lemma {:induction false} ScanRowNeverCloses(solution: seq<seq<real>>, start: Cell, path: seq<Cell>, j: nat)
    requires PathFits(solution, path) && 1 <= |path| <= MaxPathLength
    requires path[0] == start
    ensures ScanRow(solution, start, path, j) == None
    decreases MaxPathLength + 1 - |path|, 0, Width(solution) - j
  {
    if j < Width(solution) {
      var current := path[|path| - 1];
      var next := Cell(current.i, j);
      if j != current.j && solution[current.i][j] > Epsilon && next !in path {
        FindLoopNeverCloses(solution, start, path + [next], false);
      }
      ScanRowNeverCloses(solution, start, path, j + 1);
    }
  }

  lemma {:induction false} ScanColumnNeverCloses(solution: seq<seq<real>>, start: Cell, path: seq<Cell>, i: nat)
    requires PathFits(solution, path) && 1 <= |path| <= MaxPathLength
    requires path[0] == start
    ensures ScanColumn(solution, start, path, i) == None
    decreases MaxPathLength + 1 - |path|, 0, |solution| - i
  {
    if i < |solution| {
      var current := path[|path| - 1];
      var next := Cell(i, current.j);
      if i != current.i && solution[i][current.j] > Epsilon && next !in path {
        FindLoopNeverCloses(solution, start, path + [next], true);
      }
      ScanColumnNeverCloses(solution, start, path, i + 1);
    }
  }

  /** As written, the stepping-stone search always comes back empty. */
  lemma SteppingStoneAlwaysEmpty(solution: seq<seq<real>>, startI: nat, startJ: nat)
    requires |solution| > 0 && IsMatrix(solution, |solution|, Width(solution))
    requires startI < |solution| && startJ < Width(solution)
    ensures FindSteppingStone(solution, startI, startJ) == []
  {
    FindLoopNeverCloses(solution, Cell(startI, startJ), [Cell(startI, startJ)], true);
  }

  // ------------------------------------------------------ theta and moves

  predicate OnGrid(solution: seq<seq<real>>, cycle: seq<Cell>) {
    forall k :: 0 <= k < |cycle| ==> cycle[k].i < |solution| && cycle[k].j < |solution[cycle[k].i]|
  }

  function At(solution: seq<seq<real>>, c: Cell): real
    requires c.i < |solution| && c.j < |solution[c.i]|
  {
    solution[c.i][c.j]
  }

  /** A "subtract" position of the cycle (odd index) whose cell is basic. */
  predicate Donor(solution: seq<seq<real>>, cycle: seq<Cell>, k: int)
    requires OnGrid(solution, cycle)
  {
    0 <= k < |cycle| && k % 2 == 1 && At(solution, cycle[k]) > Epsilon
  }

  /** The running minimum over the odd positions from k on; None is the
      initial Infinity of calculateMinTheta. */
  function MinThetaFrom(solution: seq<seq<real>>, cycle: seq<Cell>, k: nat, acc: Option<real>): (r: Option<real>)
    requires OnGrid(solution, cycle) && k % 2 == 1
    requires acc.Some? ==> acc.value > Epsilon
    ensures r.Some? <==> acc.Some? || exists k' :: k <= k' && Donor(solution, cycle, k')
    ensures r.Some? ==> r.value > Epsilon && (acc.Some? ==> r.value <= acc.value)
    ensures r.Some? ==>
      (acc.Some? && r.value == acc.value) ||
      (exists k' :: k <= k' && Donor(solution, cycle, k') && At(solution, cycle[k']) == r.value)
    ensures forall k' :: k <= k' && Donor(solution, cycle, k') ==> r.Some? && r.value <= At(solution, cycle[k'])
    decreases |cycle| - k
  {
    if k >= |cycle| then acc
    else
      var x := At(solution, cycle[k]);
      var acc' := if x > Epsilon then (if acc.None? || x < acc.value then Some(x) else acc) else acc;
      assert x > Epsilon ==> Donor(solution, cycle, k);
      var r := MinThetaFrom(solution, cycle, k + 2, acc');
      assert forall k' :: k <= k' && Donor(solution, cycle, k') ==> k' == k || k + 2 <= k';
      r
  }

  /** theta: the least allocation above Epsilon at an odd ("subtract")
      position of the cycle, or 0 when there is none. */
  function CalculateMinTheta(solution: seq<seq<real>>, cycle: seq<Cell>): (theta: real)
    requires OnGrid(solution, cycle)
    ensures theta >= 0.0
    ensures theta > 0.0 <==> exists k :: Donor(solution, cycle, k)
    ensures theta > 0.0 ==> exists k :: Donor(solution, cycle, k) && At(solution, cycle[k]) == theta
    ensures forall k :: Donor(solution, cycle, k) ==> theta <= At(solution, cycle[k])
  {
    match MinThetaFrom(solution, cycle, 1, None)
    case None => 0.0
    case Some(t) => t
  }

  function Max(a: real, b: real): real {
    if a >= b then a else b
  }

  /** The new value at position k: theta added at an even position,
      subtracted (but never below 0) at an odd one. */
  function MovedValue(solution: seq<seq<real>>, cycle: seq<Cell>, theta: real, k: nat): real
    requires OnGrid(solution, cycle) && k < |cycle|
  {
    if k % 2 == 0 then At(solution, cycle[k]) + theta else Max(0.0, At(solution, cycle[k]) - theta)
  }

  /** The allocation after the move at position k alone. */
  function MoveAt(solution: seq<seq<real>>, cycle: seq<Cell>, theta: real, k: nat): (r: seq<seq<real>>)
    requires OnGrid(solution, cycle) && k < |cycle|
    ensures |r| == |solution| && forall i :: 0 <= i < |r| ==> |r[i]| == |solution[i]|
    ensures OnGrid(r, cycle)
    ensures r[cycle[k].i] == solution[cycle[k].i][cycle[k].j := MovedValue(solution, cycle, theta, k)]
    ensures forall i :: 0 <= i < |solution| && i != cycle[k].i ==> r[i] == solution[i]
  {
    var c := cycle[k];
    solution[c.i := solution[c.i][c.j := MovedValue(solution, cycle, theta, k)]]
  }

  /** Moves theta along cycle[k..], one position after the other. */
  function ReallocateFrom(solution: seq<seq<real>>, cycle: seq<Cell>, theta: real, k: nat): (r: seq<seq<real>>)
    requires OnGrid(solution, cycle) && k <= |cycle|
    ensures |r| == |solution| && forall i :: 0 <= i < |r| ==> |r[i]| == |solution[i]|
    ensures theta >= 0.0 && NonNegative(solution) ==> NonNegative(r)
    decreases |cycle| - k
  {
    if k == |cycle| then solution
    else ReallocateFrom(MoveAt(solution, cycle, theta, k), cycle, theta, k + 1)
  }

  /** The move at position k leaves the cells at the other positions of a
      cycle of distinct cells as they were. */
  lemma MoveAtKeepsOthers(solution: seq<seq<real>>, cycle: seq<Cell>, theta: real, k: nat)
    requires OnGrid(solution, cycle) && k < |cycle| && Distinct(cycle)
    ensures forall k' :: 0 <= k' < |cycle| && k' != k ==>
      At(MoveAt(solution, cycle, theta, k), cycle[k']) == At(solution, cycle[k'])
  {
    var r := MoveAt(solution, cycle, theta, k);
    forall k' | 0 <= k' < |cycle| && k' != k
      ensures At(r, cycle[k']) == At(solution, cycle[k'])
    {
      assert cycle[k'] != cycle[k];
    }
  }

  predicate NonNegative(a: seq<seq<real>>) {
    forall i, j :: 0 <= i < |a| && 0 <= j < |a[i]| ==> a[i][j] >= 0.0
  }

  predicate Distinct(cycle: seq<Cell>) {
    forall k1, k2 :: 0 <= k1 < k2 < |cycle| ==> cycle[k1] != cycle[k2]
  }

  /** The closed path a stepping-stone search is after, the entering cell
      first and not repeated at the end: an even number (at least 4) of
      distinct cells, alternately sharing a row (positions 2t and 2t+1)
      and a column (positions 2t+1 and 2t+2, the last with the first). */
  predicate IsClosedCycle(cycle: seq<Cell>, m: nat, n: nat) {
    |cycle| >= 4 && |cycle| % 2 == 0 && Distinct(cycle) &&
    (forall k :: 0 <= k < |cycle| ==> InBounds(cycle[k], m, n)) &&
    (forall k :: 0 <= k && k + 1 < |cycle| && k % 2 == 0 ==> cycle[k].i == cycle[k + 1].i) &&
    (forall k :: 0 <= k && k + 1 < |cycle| && k % 2 == 1 ==> cycle[k].j == cycle[k + 1].j) &&
    cycle[|cycle| - 1].j == cycle[0].j
  }

  /** The net change the moves from position k on make to row `row`. */
  function RowDelta(cycle: seq<Cell>, theta: real, row: nat, k: nat): real
    decreases |cycle| - k
  {
    if k >= |cycle| then 0.0
    else (if cycle[k].i == row then (if k % 2 == 0 then theta else -theta) else 0.0) + RowDelta(cycle, theta, row, k + 1)
  }

  /** The net change the moves from position k on make to column `col`. */
  function ColumnDelta(cycle: seq<Cell>, theta: real, col: nat, k: nat): real
    decreases |cycle| - k
  {
    if k >= |cycle| then 0.0
    else (if cycle[k].j == col then (if k % 2 == 0 then theta else -theta) else 0.0) + ColumnDelta(cycle, theta, col, k + 1)
  }

  /** Moving theta along distinct cells, no odd cell holding less than
      theta, shifts each row sum by exactly its RowDelta. */
  lemma {:induction false} ReallocateRowSum(solution: seq<seq<real>>, cycle: seq<Cell>, theta: real, k: nat, row: nat)
    requires OnGrid(solution, cycle) && Distinct(cycle) && k <= |cycle| && row < |solution|
    requires forall k' :: k <= k' < |cycle| && k' % 2 == 1 ==> At(solution, cycle[k']) >= theta
    ensures Sum(ReallocateFrom(solution, cycle, theta, k)[row]) == Sum(solution[row]) + RowDelta(cycle, theta, row, k)
    decreases |cycle| - k
  {
    if k < |cycle| {
      var c := cycle[k];
      var moved := MoveAt(solution, cycle, theta, k);
      MoveAtKeepsOthers(solution, cycle, theta, k);
      ReallocateRowSum(moved, cycle, theta, k + 1, row);
      if c.i == row {
        SumUpdate(solution[row], c.j, MovedValue(solution, cycle, theta, k));
      }
    }
  }

  lemma {:induction false} ReallocateColumnSum(solution: seq<seq<real>>, cycle: seq<Cell>, theta: real, k: nat, col: nat)
    requires |solution| > 0 && IsMatrix(solution, |solution|, Width(solution)) && col < Width(solution)
    requires OnGrid(solution, cycle) && Distinct(cycle) && k <= |cycle|
    requires forall k' :: k <= k' < |cycle| && k' % 2 == 1 ==> At(solution, cycle[k']) >= theta
    ensures Sum(Column(ReallocateFrom(solution, cycle, theta, k), col)) == Sum(Column(solution, col)) + ColumnDelta(cycle, theta, col, k)
    decreases |cycle| - k
  {
    if k < |cycle| {
      var c := cycle[k];
      var moved := MoveAt(solution, cycle, theta, k);
      MoveAtKeepsOthers(solution, cycle, theta, k);
      assert IsMatrix(moved, |solution|, Width(solution));
      ReallocateColumnSum(moved, cycle, theta, k + 1, col);
      MoveAtColumn(solution, cycle, theta, k, col);
      if c.j == col {
        SumUpdate(Column(solution, col), c.i, MovedValue(solution, cycle, theta, k));
      }
    }
  }

  lemma MoveAtColumn(solution: seq<seq<real>>, cycle: seq<Cell>, theta: real, k: nat, col: nat)
    requires |solution| > 0 && IsMatrix(solution, |solution|, Width(solution)) && col < Width(solution)
    requires OnGrid(solution, cycle) && k < |cycle|
    ensures Column(MoveAt(solution, cycle, theta, k), col) ==
      if cycle[k].j == col then Column(solution, col)[cycle[k].i := MovedValue(solution, cycle, theta, k)]
      else Column(solution, col)
  {
  }

  /** Along a closed cycle each row is entered and left in pairs. */
  lemma {:induction false} RowDeltaVanishes(cycle: seq<Cell>, theta: real, row: nat, k: nat)
    requires |cycle| % 2 == 0 && k % 2 == 0 && k <= |cycle|
    requires forall k' :: 0 <= k' && k' + 1 < |cycle| && k' % 2 == 0 ==> cycle[k'].i == cycle[k' + 1].i
    ensures RowDelta(cycle, theta, row, k) == 0.0
    decreases |cycle| - k
  {
    if k < |cycle| {
      assert cycle[k].i == cycle[k + 1].i;
      RowDeltaVanishes(cycle, theta, row, k + 2);
    }
  }

  /** From an odd position on, the column moves pair up except the last
      one, a subtraction in the last cell's column. */
  lemma {:induction false} ColumnDeltaFromOdd(cycle: seq<Cell>, theta: real, col: nat, k: nat)
    requires |cycle| % 2 == 0 && k % 2 == 1 && k < |cycle|
    requires forall k' :: 0 <= k' && k' + 1 < |cycle| && k' % 2 == 1 ==> cycle[k'].j == cycle[k' + 1].j
    ensures ColumnDelta(cycle, theta, col, k) == (if cycle[|cycle| - 1].j == col then -theta else 0.0)
    decreases |cycle| - k
  {
    if k + 1 < |cycle| {
      assert cycle[k].j == cycle[k + 1].j;
      ColumnDeltaFromOdd(cycle, theta, col, k + 2);
    }
  }

  /** Moving theta around a closed cycle keeps every row sum and every
      column sum, provided no subtracted cell holds less than theta; and
      with theta >= 0 no allocation goes negative. */
  lemma ReallocationConserves(solution: seq<seq<real>>, cycle: seq<Cell>, theta: real)
    requires |solution| > 0 && IsMatrix(solution, |solution|, Width(solution))
    requires IsClosedCycle(cycle, |solution|, Width(solution))
    requires forall k :: 0 <= k < |cycle| && k % 2 == 1 ==> At(solution, cycle[k]) >= theta
    ensures var r := ReallocateAlongCycle(solution, cycle, theta);
      IsMatrix(r, |solution|, Width(solution)) &&
      (forall i :: 0 <= i < |solution| ==> Sum(r[i]) == Sum(solution[i])) &&
      (forall j :: 0 <= j < Width(solution) ==> Sum(Column(r, j)) == Sum(Column(solution, j)))
  {
    var r := ReallocateAlongCycle(solution, cycle, theta);
    forall i | 0 <= i < |solution|
      ensures Sum(r[i]) == Sum(solution[i])
    {
      ReallocateRowSum(solution, cycle, theta, 0, i);
      RowDeltaVanishes(cycle, theta, i, 0);
    }
    forall j | 0 <= j < Width(solution)
      ensures Sum(Column(r, j)) == Sum(Column(solution, j))
    {
      ReallocateColumnSum(solution, cycle, theta, 0, j);
      ColumnDeltaFromOdd(cycle, theta, j, 1);
    }
  }

  function ReallocateAlongCycle(solution: seq<seq<real>>, cycle: seq<Cell>, theta: real): (r: seq<seq<real>>)
    requires OnGrid(solution, cycle)
    ensures |r| == |solution| && forall i :: 0 <= i < |r| ==> |r[i]| == |solution[i]|
    ensures theta >= 0.0 && NonNegative(solution) ==> NonNegative(r)
  {
    ReallocateFrom(solution, cycle, theta, 0)
  }

  // -------------------------------------------------------------- the loop

  /** Why the optimizer stopped. */
  datatype Exit = DisconnectedBasis | Converged | NoCycle | DegenerateTheta | IterationCap

  datatype Run = Run(solution: seq<seq<real>>, exit: Exit, iterations: nat)

  /** The outcome of one iteration: stop for a reason, or move to a new
      allocation. */
  datatype Step = Stop(exit: Exit) | Move(next: seq<seq<real>>)

  /** The iteration after the duals are known: pick the entering cell,
      search its cycle, and move theta along it. */
  function ImproveStep(solution: seq<seq<real>>, profit: seq<seq<real>>, d: Duals): (s: Step)
    requires Grid(solution, profit) && |d.u| == |solution| && |d.v| == Width(solution)
    ensures s.Move? ==> Grid(s.next, profit)
    ensures s.Stop? ==> s.exit in {Converged, NoCycle, DegenerateTheta}
    ensures s == Stop(Converged) <==>
      forall c :: InBounds(c, |solution|, Width(solution)) && NonBasic(solution, c) ==>
        Opportunity(profit, d, c) <= ImprovementThreshold
  {
    var e := FindEntering(solution, profit, d);
    if e.maxImprovement <= ImprovementThreshold then Stop(Converged)
    else
      var c := e.cell.value;
      var cycle := FindSteppingStone(solution, c.i, c.j);
      if |cycle| < 4 then Stop(NoCycle)
      else
        var theta := CalculateMinTheta(solution, cycle);
        if theta <= 0.0 then Stop(DegenerateTheta)
        else Move(ReallocateAlongCycle(solution, cycle, theta))
  }

  /** One MODI iteration. */
  function ModiStep(solution: seq<seq<real>>, profit: seq<seq<real>>): (s: Step)
    requires Grid(solution, profit)
    ensures s.Move? ==> Grid(s.next, profit)
    ensures s.Stop? ==> s.exit != IterationCap
    ensures s == Stop(DisconnectedBasis) <==> CalculateDualVariables(solution, profit).None?
  {
    match CalculateDualVariables(solution, profit)
    case None => Stop(DisconnectedBasis)
    case Some(d) => ImproveStep(solution, profit, d)
  }

  /** The optimizer's loop, from iteration `iterations` on. */
  function OptimizeLoop(solution: seq<seq<real>>, profit: seq<seq<real>>, iterations: nat): (r: Run)
    requires Grid(solution, profit) && iterations <= MaxIterations
    ensures Grid(r.solution, profit)
    ensures iterations <= r.iterations <= MaxIterations
    ensures r.exit == IterationCap ==> r.iterations == MaxIterations
    // any other exit is the verdict of one more step on the final allocation
    ensures r.exit != IterationCap ==> ModiStep(r.solution, profit) == Stop(r.exit)
    decreases MaxIterations - iterations
  {
    if iterations >= MaxIterations then Run(solution, IterationCap, iterations)
    else
      match ModiStep(solution, profit)
      case Stop(exit) => Run(solution, exit, iterations + 1)
      case Move(next) => OptimizeLoop(next, profit, iterations + 1)
  }

  function OptimizeWithMODI(solution: seq<seq<real>>, profit: seq<seq<real>>): (r: seq<seq<real>>)
    requires Grid(solution, profit)
    ensures Grid(r, profit)
  {
    OptimizeLoop(solution, profit, 0).solution
  }

  /** As written, the optimizer hands back its input unchanged after one
      iteration: either the basis is disconnected, or the test reports
      optimality, or the stepping-stone search finds no cycle. */
  lemma OptimizeReturnsInput(solution: seq<seq<real>>, profit: seq<seq<real>>)
    requires Grid(solution, profit)
    ensures var run := OptimizeLoop(solution, profit, 0);
      run.solution == solution && run.iterations == 1 &&
      run.exit in {DisconnectedBasis, Converged, NoCycle}
    ensures OptimizeWithMODI(solution, profit) == solution
  {
    match CalculateDualVariables(solution, profit)
    case None =>
    case Some(d) =>
      var e := FindEntering(solution, profit, d);
      if e.maxImprovement > ImprovementThreshold {
        SteppingStoneAlwaysEmpty(solution, e.cell.value.i, e.cell.value.j);
      }
  }

  /** When the optimizer reports convergence, the duals exist and no
      non-basic cell offers an opportunity above the threshold. */
  lemma ConvergedIsOptimal(solution: seq<seq<real>>, profit: seq<seq<real>>)
    requires Grid(solution, profit)
    ensures var run := OptimizeLoop(solution, profit, 0);
      var duals := CalculateDualVariables(run.solution, profit);
      run.exit == Converged ==>
        duals.Some? &&
        forall c :: InBounds(c, |run.solution|, Width(run.solution)) && NonBasic(run.solution, c) ==>
          Opportunity(profit, duals.value, c) <= ImprovementThreshold
  {
    OptimizeReturnsInput(solution, profit);
    if OptimizeLoop(solution, profit, 0).exit == Converged {
      assert ModiStep(solution, profit) == Stop(Converged);
      var duals := CalculateDualVariables(solution, profit);
      assert duals.Some?;
      assert ImproveStep(solution, profit, duals.value) == Stop(Converged);
    }
  }
}
