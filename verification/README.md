# Mediator problem solver — a Dafny model

This project models the core of a web application that solves the
*mediator problem*. A trader buys from suppliers and sells to recipients,
paying a transport cost per unit on each route, and wants the most
profitable plan. The model covers the solver library
(`src/lib/mediatorSolver.ts`) and the data store that drives it
(`src/context/DataContext.tsx`). The solver runs these stages in order:

1. **Balancing** (`balanceProblem`). When total supply and total demand
   differ, one zero-price fictional supplier (`fictional_s`, "SF") or
   fictional recipient (`fictional_r`, "RF") absorbs the difference. Its
   transport costs are all 0.
2. **Profit matrix** (`createProfitMatrix`). The unit profit of a route is
   the recipient's purchase price, less the transport cost, less the
   supplier's selling price.
3. **Greedy maximum-profit allocation** (`solveMaximumProfitMethod`). Each
   round takes the live route with the highest unit profit, always
   preferring routes between real parties. It ships as much as it can on
   that route and eliminates whichever row or column is exhausted.
4. **Degeneracy repair** (`ensureBasicSolution`). It writes 0.0001 into free
   zero cells, in row-major order, until m + n − 1 cells are occupied.
5. **MODI optimizer** (`optimizeWithMODI`). It computes dual potentials,
   chooses an entering cell, searches for a stepping-stone cycle, and moves
   theta along that cycle.
6. **Totals** (`calculateTotals`). Cost, income and profit are summed over
   the routes that carry more than 0.0001 between two real parties.

The store keeps the wizard's step and the entered data. Its updaters
(amounts, supplier and recipient edits, costs, reset, next and previous
step) are pure record transitions. `solveMediatorProblem` returns nothing
unless costs and both lists are present.

Quantities, prices and costs are exact `real`s, and the tolerances 0.0001
and 0.001 are exact constants. Matrices are `seq<seq<real>>`. The cost
record is a `map<string, map<string, real>>`, keyed by recipient id and
then by supplier id.

The model proves two facts about the code as written:

- **The stepping-stone search never closes a cycle.** The entering cell is
  the first cell of the search path. A cell already on the path is never
  stepped onto again, so the test that would recognise the return to the
  entering cell can never succeed. The optimizer therefore always stops
  after one iteration and returns its input unchanged.
- **Epsilon cells are invisible.** They hold exactly 0.0001. The dual
  potentials, the stepping-stone search, theta and the totals all test
  `> 0.0001`, so to them an epsilon cell is an empty cell. In particular the
  repair's epsilon cells change neither the dual potentials nor the totals.
  The entering-cell scan tests `=== 0 || < 0.001` instead, and it too treats
  0 and 0.0001 alike.

The rest of the model proves:

- conservation and exhaustion for the greedy stage;
- the exact behaviour of the repair;
- conservation of row and column sums when theta is moved around a proper
  cycle;
- the financial identities of the totals;
- an invariant of every store reachable through the updaters: ids are
  distinct and never look fictional, and the step is at least 1.

Files:

| file | module | contents |
|---|---|---|
| `entities.dfy` | `Entities` | suppliers, recipients, costs, cells, sums |
| `balancer.dfy` | `Balancer` | `balanceProblem` |
| `profit.dfy` | `Profit` | `createProfitMatrix` |
| `greedy.dfy` | `Greedy` | `solveMaximumProfitMethod`, `ensureBasicSolution` |
| `modi.dfy` | `Modi` | `optimizeWithMODI` and its helpers |
| `totals.dfy` | `Totals` | `calculateTotals` |
| `solver.dfy` | `Solver` | `solveVAM` |
| `context.dfy` | `DataContext` | the store's updaters and `solveMediatorProblem` |

## Model

| member | source | states |
|---|---|---|
| Balancer.BalanceProblem | src/lib/mediatorSolver.ts:36-77 | After balancing, total supply equals total demand. The originals keep their order and at most one entity follows them. A shortage appends supplier `fictional_s` "SF" with the missing quantity at price 0. A surplus appends recipient `fictional_r` "RF" with the excess at price 0. Equal totals return the input unchanged. The fictional supplier costs 0 from every recipient. The cost keys become the old keys plus the recipient ids, rows of other ids are kept, and every other entry of a recipient row is kept. The fictional recipient gets a row of zero costs for exactly the suppliers, and other rows are kept. |
| Balancer.AddFictionalSupplierCosts | src/lib/mediatorSolver.ts:57-60 | Every recipient gets a cost row (created if missing) with a 0 entry for the fictional supplier. Every other entry exists and is equal exactly when it did before. Rows of non-recipients are untouched. |
| Balancer.FictionalRecipientRow | src/lib/mediatorSolver.ts:70-73 | The new row's keys are exactly the supplier ids, and every value is 0. |
| Balancer.BalancePreservesCoverage | src/lib/mediatorSolver.ts:48-76 | If the caller's costs cover every supplier/recipient pair, the balanced costs cover every balanced pair, the fictional entity included. |
| Balancer.BalanceIdempotent | src/lib/mediatorSolver.ts:48-76 | Balancing an already balanced result adds nothing and changes nothing. |
| Profit.CreateProfitMatrix | src/lib/mediatorSolver.ts:79-100 | The matrix is m-by-n. Entry (i, j) is the recipient's purchase price minus the transport cost from supplier i to recipient j minus the supplier's selling price. The matrix equals the functional definition `ProfitMatrix`. |
| Greedy.ScanBest | src/lib/mediatorSolver.ts:137-159 | A route is found exactly when an eligible one exists: not eliminated, supply and demand both left, and genuine when asked. The found route has the greatest profit among eligible routes. Every eligible route earlier in row-major order has strictly smaller profit, which is the strict `>` tie-break. |
| Greedy.SelectRoute | src/lib/mediatorSolver.ts:137-180 | A route is chosen exactly when any live route exists. A genuine route (no fictional end) is chosen whenever one is live. The choice is the first maximum, in row-major order, of the class it was picked from. |
| Greedy.RoundConserves | src/lib/mediatorSolver.ts:182-187 | After shipping min(supply, demand) on the chosen route, what each row and column received plus what it has left equals its original amount. Nothing left goes negative. The gap between remaining supply and remaining demand is unchanged. |
| Greedy.RoundKeepsCells | src/lib/mediatorSolver.ts:182-194 | The chosen cell was empty and unoccupied. Cells stay non-negative, and the occupied set is exactly the non-zero cells. Eliminated rows and columns have nothing left. Every round strictly grows the eliminated rows plus columns, which is the loop's termination measure. |
| Greedy.NoRouteMeansExhausted | src/lib/mediatorSolver.ts:161-180 | When no route is live, either all remaining supply or all remaining demand is zero. |
| Greedy.InitiallyConserved | src/lib/mediatorSolver.ts:120-126 | The zero matrix, with the original supplies and demands left, satisfies the conservation invariant. |
| Greedy.ExhaustedConclusion | src/lib/mediatorSolver.ts:132-195 | Once one side is exhausted, no row exceeds its supply and no column exceeds its demand. All rows or all columns are met exactly. On a balanced problem both are met. |
| Greedy.RoundProgresses | src/lib/mediatorSolver.ts:182-194 | A round on a live route, taken while some row and some column are open, keeps conservation, sound elimination and sound cells. Occupied cells stay at most the eliminated rows plus columns, and at most m + n − 1. The round eliminates at least one more row or column. |
| Greedy.RunRounds | src/lib/mediatorSolver.ts:132-195 | The main loop keeps that invariant. It ends with all remaining supply or all remaining demand at zero. It records its run: each round takes the route SelectRoute picks, and that cell receives the round's shipment. Cells no round took are unchanged. The loop stops only when no route is live. |
| Greedy.GreedyChoiceUnique | src/lib/mediatorSolver.ts:137-180 | A state has one greedy choice at most: genuine routes first, then the first maximum in row-major order. |
| Greedy.RunExtends | src/lib/mediatorSolver.ts:182-194 | A round extends the run without overwriting an earlier round's cell, because the chosen cell is still empty. |
| Greedy.RunsAgree | src/lib/mediatorSolver.ts:132-195 | Two runs from the same start take the same rounds through the same states for as long as both last. |
| Greedy.StoppedRunIsLongest | src/lib/mediatorSolver.ts:132-195 | A run that stopped with no live route is at least as long as any other run from the same start. |
| Greedy.GreedyAllocationUnique | src/lib/mediatorSolver.ts:115-195 | The greedy allocation is determined by the suppliers, recipients and profit matrix: any two coincide cell by cell. |
| Greedy.BestRouteFilledFirst | src/lib/mediatorSolver.ts:137-190 | Take two suppliers and two recipients of 5 each, with profit 10 on the diagonal and 1 off it. The first round fills route (0, 0) with all 5 units. |
| Greedy.BalancedExhaustsBoth | src/lib/mediatorSolver.ts:132-195 | On a balanced problem, once one side has nothing left, neither has the other. |
| Greedy.AllocateGreedily | src/lib/mediatorSolver.ts:115-195 | The greedy allocation is m-by-n and non-negative. Its occupied set is exactly its non-zero cells, and there are at most m + n − 1 of them. Row sums stay within supplies and column sums within demands. One side is met in full, and on a balanced problem every supply and every demand is met exactly. It is the allocation the profit-driven rounds make, so it is determined by the profit matrix (GreedyAllocationUnique). |
| Greedy.EnsureBasicSolution | src/lib/mediatorSolver.ts:201-223 | Occupied or non-zero cells are never touched, and a changed cell was a free zero cell that now holds exactly 0.0001. With m + n − 1 cells already occupied, nothing changes. Otherwise the count never passes m + n − 1. Filling stops only at that count or when every free zero cell is filled. The filled cells are the first free zero cells in row-major order. |
| Greedy.SolveMaximumProfitMethod | src/lib/mediatorSolver.ts:115-223 | Each cell of the result equals the greedy allocation's, or is 0.0001 where the greedy cell was 0. The result is a basic solution: its non-zero cells number at most m + n − 1, and exactly m + n − 1 unless every cell is non-zero. The greedy allocation's bounds hold, and on a balanced problem it meets every supply and demand exactly. The greedy allocation is the one the profit-driven rounds make. |
| Modi.BasicCells | src/lib/mediatorSolver.ts:285-292 | The basic cells are exactly the in-range cells holding more than 0.0001. |
| Modi.PropagateCell | src/lib/mediatorSolver.ts:301-308 | A basic cell derives a potential exactly when one of its two potentials is known. It then satisfies u + v = profit, known potentials never change, and other rows and columns are untouched. |
| Modi.PropagationPass | src/lib/mediatorSolver.ts:297-310 | One pass keeps every known potential. It reports a change whenever the incoming flag was set, and a pass that reports none leaves the potentials as they were. |
| Modi.PassExplained | src/lib/mediatorSolver.ts:301-308 | A pass keeps every known potential explained by a satisfied basic cell of its row or column. |
| Modi.PropagationLoop | src/lib/mediatorSolver.ts:294-310 | Repeated passes, capped at 200, keep every known potential and keep the shape. |
| Modi.LoopExplained | src/lib/mediatorSolver.ts:294-310 | Repeated passes keep every known potential explained by a satisfied basic cell. |
| Modi.PassKnowsMore | src/lib/mediatorSolver.ts:297-310 | A pass never lowers the number of known potentials, and one that derives something raises it. |
| Modi.PassSettles | src/lib/mediatorSolver.ts:297-310 | A pass that derives nothing found both potentials known, or neither, at every basic cell. |
| Modi.LoopSettles | src/lib/mediatorSolver.ts:294-310 | While fewer potentials are unknown than passes remain, the loop cannot stop at its cap. It ends at a fixpoint where no basic cell has exactly one known potential. |
| Modi.LoopWithin | src/lib/mediatorSolver.ts:294-310 | If no basic cell joins a row of R to a column outside C (or the other way round), potentials known only in R and C stay so. |
| Modi.CutBlocksPropagation | src/lib/mediatorSolver.ts:294-314 | If the basic cells leave some row or column unconnected to row 0, some potential stays unknown. |
| Modi.UnknownGivesCut | src/lib/mediatorSolver.ts:294-314 | With m + n ≤ 200, a potential left unknown yields such a cut: the known rows and columns. |
| Modi.PropagationCertificate | src/lib/mediatorSolver.ts:274-317 | Propagation leaves a potential unknown exactly when the basis is disconnected. The "only if" direction needs m + n ≤ 200. |
| Modi.CalculateDualVariables | src/lib/mediatorSolver.ts:274-317 | If duals are returned, there are m of u and n of v, and u[0] = 0. Each other u[i], and each v[j], has a basic cell in its row (column) where u[i] + v[j] equals the profit. There are no duals when the basic cells leave some row or column unconnected to row 0. With m + n ≤ 200, a missing result means exactly that. On a basis of exactly m + n − 1 cells, u[i] + v[j] equals the profit at every basic cell, because propagation starts from u[0] = 0. |
| Modi.LoopAccounted | src/lib/mediatorSolver.ts:294-310 | Propagation from u[0] keeps the known potentials at most one more than the satisfied basic cells. Each derivation learns one potential and satisfies the cell it came from. |
| Modi.SpanningBasisSatisfied | src/lib/mediatorSolver.ts:294-314 | With every potential known and one basic cell fewer than potentials, every basic cell is satisfied. |
| Modi.SpanningBasisPinned | src/lib/mediatorSolver.ts:294-316 | The duals read off fully propagated potentials meet u[i] + v[j] = profit at every basic cell of an m + n − 1 basis. |
| Modi.DualsIgnoreCellsAtOrBelowEpsilon | src/lib/mediatorSolver.ts:286-292 | Two allocations with the same cells above 0.0001 have the same duals. Epsilon cells cannot connect a basis. |
| Modi.EnteringScan | src/lib/mediatorSolver.ts:247-258 | The scan keeps a sound choice: a non-basic cell whose opportunity equals the running maximum and exceeds 0.001, or no cell at 0. Every scanned non-basic cell is within 0.001 of the result. |
| Modi.FindEntering | src/lib/mediatorSolver.ts:243-260 | The optimality test: the improvement is at most 0.001 exactly when no non-basic cell (0, or below 0.001) has an opportunity above 0.001. Above that, the entering cell is non-basic and attains the improvement. |
| Modi.FindLoop | src/lib/mediatorSolver.ts:327-362 | A returned path extends the search path and ends at the start cell. |
| Modi.FindSteppingStone | src/lib/mediatorSolver.ts:319-366 | A non-empty result starts and ends at the entering cell and stays in range. |
| Modi.FindLoopNeverCloses | src/lib/mediatorSolver.ts:333-361 | From a path that starts at the start cell and does not end there, the search returns nothing. |
| Modi.SteppingStoneAlwaysEmpty | src/lib/mediatorSolver.ts:319-366 | The stepping-stone search returns the empty path for every allocation and entering cell. |
| Modi.MinThetaFrom | src/lib/mediatorSolver.ts:374-379 | The running minimum exists exactly when a start value or an odd position above 0.0001 exists. It is attained, and it is at most every such cell. |
| Modi.CalculateMinTheta | src/lib/mediatorSolver.ts:368-382 | Theta is non-negative. It is positive exactly when some odd position of the cycle holds more than 0.0001, and then it is the least such value. |
| Modi.ReallocateFrom | src/lib/mediatorSolver.ts:389-396 | The moves keep the matrix shape. With theta ≥ 0, no cell goes negative. |
| Modi.ReallocateRowSum | src/lib/mediatorSolver.ts:389-396 | Along distinct cells whose subtracted cells hold at least theta, each row sum moves by exactly theta per addition minus theta per subtraction in that row. |
| Modi.ReallocateColumnSum | src/lib/mediatorSolver.ts:389-396 | The same holds for every column sum. |
| Modi.ReallocationConserves | src/lib/mediatorSolver.ts:384-397 | Around a closed cycle whose subtracted cells hold at least theta, every row sum and every column sum is preserved. |
| Modi.ReallocateAlongCycle | src/lib/mediatorSolver.ts:384-397 | The matrix shape is kept, and with theta ≥ 0 the allocation stays non-negative. |
| Modi.ImproveStep | src/lib/mediatorSolver.ts:243-269 | An iteration stops as converged exactly when no non-basic cell offers more than 0.001. Any other stop is for a missing cycle or a zero theta, and a move keeps the shape. |
| Modi.ModiStep | src/lib/mediatorSolver.ts:236-269 | An iteration stops for a disconnected basis exactly when the duals are missing, and never for the cap. |
| Modi.OptimizeLoop | src/lib/mediatorSolver.ts:231-271 | The loop runs at most 100 iterations. It stops at the cap only after 100. Any other stop is the verdict of one more iteration on the returned allocation. |
| Modi.OptimizeWithMODI | src/lib/mediatorSolver.ts:225-272 | The result has the input's shape. |
| Modi.OptimizeReturnsInput | src/lib/mediatorSolver.ts:235-271 | The optimizer returns its input unchanged after exactly one iteration. It stops for a disconnected basis, for convergence, or for a missing cycle. |
| Modi.ConvergedIsOptimal | src/lib/mediatorSolver.ts:247-260 | When the optimizer reports convergence, the duals exist and no non-basic cell offers an opportunity above 0.001. |
| Totals.CalculateTotals | src/lib/mediatorSolver.ts:399-439 | Cost and income are the sums, over routes carrying more than 0.0001 with no fictional end, of quantity × (transport + selling price) and quantity × purchase price. Profit is income minus cost. |
| Totals.RouteProfitIsIncomeLessCost | src/lib/mediatorSolver.ts:421-431 | On each route, income minus cost is quantity × unit profit. |
| Totals.ProfitIsSumOfUnitProfits | src/lib/mediatorSolver.ts:411-437 | Total income minus total cost is the sum of quantity × unit profit over the contributing routes. |
| Totals.TotalsIgnoreNonContributing | src/lib/mediatorSolver.ts:411-423 | Two allocations that agree on the contributing routes have equal totals. Cells at or below 0.0001 and routes with a fictional end never count. |
| Solver.SolveVAM | src/lib/mediatorSolver.ts:102-113 | The result is the greedy allocation with 0.0001 in some of its zero cells, because the optimizer hands it back unchanged. It is a basic solution: m + n − 1 non-zero cells, unless every cell is non-zero. The greedy allocation, not the result, keeps the greedy stage's bounds, and on a balanced problem it meets every supply and demand exactly. In the result, each epsilon cell adds 0.0001 to its row and its column. The greedy allocation is the one the profit-driven rounds make on `profit`. |
| DataContext.SetSupplierAndRecipientAmounts | src/context/DataContext.tsx:80-101 | The amounts are stored as given, fractional ones included. The lists hold the amounts' whole parts in suppliers s1, s2, ... named S1, S2, ... and recipients r1, r2, ... named R1, R2, .... All have zero quantity and price, and the costs are kept. Ids are distinct, and none looks fictional. |
| DataContext.ListLength | src/context/DataContext.tsx:86-92 | The list `Array.from` builds has length x truncated toward zero: the largest whole number not above x, or 0 for a negative x. |
| DataContext.NatToStringInjective | src/context/DataContext.tsx:86-97 | Different numbers give different decimal strings, so the generated ids differ. |
| DataContext.DefaultIdsDistinct | src/context/DataContext.tsx:86-97 | Ids generated as s<k> or r<k> are pairwise distinct. |
| DataContext.DefaultIdsNotFictional | src/context/DataContext.tsx:86-97 | No generated id starts with `fictional_`. |
| DataContext.UpdateSupplier | src/context/DataContext.tsx:103-116 | Length and order are kept. Exactly the suppliers with the given id get the given fields merged in, and everything else is unchanged. |
| DataContext.UpdateRecipient | src/context/DataContext.tsx:118-131 | Length and order are kept. Exactly the recipients with the given id get the given fields merged in, and everything else is unchanged. |
| DataContext.UpdateUnknownIdIsNoOp | src/context/DataContext.tsx:108-128 | An update naming an id that no entry has changes nothing. |
| DataContext.UpdateIdempotent | src/context/DataContext.tsx:108-128 | Applying the same update twice equals applying it once. |
| DataContext.SetCosts | src/context/DataContext.tsx:133-138 | The costs are set and nothing else changes. |
| DataContext.NextStep | src/context/DataContext.tsx:189 | The step goes forward by exactly one. |
| DataContext.PrevStep | src/context/DataContext.tsx:190-193 | The step goes back by one, but never below 1. |
| DataContext.StepsUndo | src/context/DataContext.tsx:189-193 | Back undoes forward from any step ≥ 1. Forward undoes back above step 1. Back from step 1 stays at 1. |
| DataContext.ResetData | src/context/DataContext.tsx:178-187 | Reset yields the initial store: no data and step 1. |
| DataContext.InitialStoreWellFormed | src/context/DataContext.tsx:70-78 | The initial store satisfies the store invariant. |
| DataContext.ApplyKeepsWellFormed | src/context/DataContext.tsx:80-193 | Every updater keeps the invariant: step ≥ 1, ids distinct within each list, and no id fictional. |
| DataContext.ReachableStoresAreWellFormed | src/context/DataContext.tsx:80-193 | The invariant holds after any sequence of updater calls. |
| DataContext.BalanceKeepsNonNegative | src/lib/mediatorSolver.ts:48-73 | Balancing keeps quantities non-negative. |
| DataContext.SolveBalanced | src/context/DataContext.tsx:155-175 | The stages after balancing return the balanced lists. The solution is the greedy allocation plus epsilon cells, with m + n − 1 non-zero cells unless every cell is non-zero. The greedy allocation is the one the profit-driven rounds make on the balanced problem's profit matrix, and it meets every balanced supply and demand. Cost and income are exactly those of the greedy allocation's contributing routes, and profit is income minus cost. |
| DataContext.SolveMediatorProblem | src/context/DataContext.tsx:140-176 | The result is absent exactly when costs are unset or either list is empty. Otherwise the returned lists are the balancer's output, and solution and totals are computed from those balanced lists and costs as above. |

## Left out

- Floating point: quantities, prices and costs are exact reals. Rounding, NaN arithmetic and the tolerances' interaction with rounding are not modelled.
- Missing cost entries: the source would read `undefined` (or throw) and compute NaN. The model requires every needed cost, as `CoversAll` for the pipeline and `Totals.PricedWhereUsed` for the totals.
- Negative supplies or demands: the entry form rejects them (src/components/CapacitySupplyForm/CapacitySupplyForm.utils.ts:8-22), so the model requires non-negative quantities.
- Solver.SolveVAM: requires at least one supplier. The optimizer reads the width off the first row of the allocation and would throw on an empty one. The store's guard rules this case out.
- Modi.CalculateDualVariables: with more than 200 rows plus columns, the 200-pass cap may stop propagation early. A missing result is then not proved to mean a disconnected basis.
- Modi.FindEntering: scans the allocation's own m-by-n shape, while the source loops over the supplier and recipient counts. The two coincide wherever the optimizer is called.
- Modi.ReallocationConserves: proved for a proper closed cycle (the entering cell not repeated at the end) whose subtracted cells hold at least theta. The search never returns a cycle, so this states what the reallocation does, not what the optimizer does.
- Copying: the source copies the cost record (`JSON.parse(JSON.stringify(...))`) and the allocation rows before changing them. Dafny values are immutable, so "the caller's data is never changed" holds by construction and is not stated separately.
- The cost of the depth-first search: only its result is modelled.
- DataContext.UpdateSupplier: an update field is either present or absent. A field explicitly set to `undefined`, which the object spread would copy, is not modelled.
- DataContext.UpdateRecipient: the same simplification as for suppliers.
- DataContext.SetSupplierAndRecipientAmounts: the form accepts any amount of at least 1, fractions included (src/components/InitialForm/InitialForm.utils.ts:4-9). The model stores the amount as given and builds lists of its whole part, as `Array.from` does. An amount above 2^32 − 1, for which `Array.from` throws a RangeError, is not modelled.
- React state, context and hook plumbing, the wizard UI, the form schemas and the cost-matrix reshaping used only for logging are presentation code outside the solver.
