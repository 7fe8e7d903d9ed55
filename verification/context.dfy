/** The application's data store: the wizard's step counter, the entered
    suppliers, recipients and costs, the updaters that change them, and
    the guarded pipeline that solves the mediator problem from them. */
module DataContext {
  import opened Entities
  import opened Balancer
  import Greedy
  import Profit
  import Solver
  import Totals

  /** The entered data; None stands for the TypeScript `undefined`. */
  datatype Data = Data(
    supplierAmount: Option<real>,
    recipientAmount: Option<real>,
    suppliers: seq<Supplier>,
    recipients: seq<Recipient>,
    costs: Option<Costs>)

  datatype Store = Store(data: Data, step: int)

  const EmptyData: Data := Data(None, None, [], [], None)

  /** The store as the provider creates it: no data, first step. */
  const InitialStore: Store := Store(EmptyData, 1)

  // ------------------------------------------------------------ ids

  function Digit(d: nat): char
    requires d < 10
  {
    "0123456789"[d]
  }

  /** Decimal digits of n, most significant first, without leading zeros. */
  function NatToString(n: nat): (s: string)
    ensures |s| >= 1 && (n >= 10 <==> |s| >= 2)
    decreases n
  {
    if n < 10 then [Digit(n)] else NatToString(n / 10) + [Digit(n % 10)]
  }

  lemma {:induction false} NatToStringInjective(a: nat, b: nat)
    requires NatToString(a) == NatToString(b)
    ensures a == b
    decreases a
  {
    if a >= 10 && b >= 10 {
      var sa, sb := NatToString(a), NatToString(b);
      assert sa[..|sa| - 1] == NatToString(a / 10);
      assert sb[..|sb| - 1] == NatToString(b / 10);
      NatToStringInjective(a / 10, b / 10);
      assert Digit(a % 10) == Digit(b % 10);
    }
  }

  function SupplierId(k: nat): string {
    "s" + NatToString(k)
  }

  function RecipientId(k: nat): string {
    "r" + NatToString(k)
  }

  /** The k-th (from 0) default supplier: id s<k+1>, name S<k+1>, nothing to supply, free. */
  function DefaultSupplier(k: nat): Supplier {
    Supplier(SupplierId(k + 1), "S" + NatToString(k + 1), 0.0, 0.0)
  }

  function DefaultRecipient(k: nat): Recipient {
    Recipient(RecipientId(k + 1), "R" + NatToString(k + 1), 0.0, 0.0)
  }

  /** Ids are pairwise distinct. */
  predicate DistinctSupplierIds(suppliers: seq<Supplier>) {
    forall a, b :: 0 <= a < b < |suppliers| ==> suppliers[a].id != suppliers[b].id
  }

  predicate DistinctRecipientIds(recipients: seq<Recipient>) {
    forall a, b :: 0 <= a < b < |recipients| ==> recipients[a].id != recipients[b].id
  }

  /** No entered entity can be mistaken for one the balancer invents. */
  predicate NoneFictional(suppliers: seq<Supplier>, recipients: seq<Recipient>) {
    (forall i :: 0 <= i < |suppliers| ==> !IsFictional(suppliers[i].id)) &&
    (forall j :: 0 <= j < |recipients| ==> !IsFictional(recipients[j].id))
  }

  // ------------------------------------------------------------ updaters

  /** The length of the list `Array.from({ length: x })` builds: x
      truncated toward zero, and 0 when that is negative. */
  function ListLength(x: real): (r: nat)
    ensures x >= 0.0 ==> r as real <= x < r as real + 1.0
    ensures x < 0.0 ==> r == 0
  {
    if x < 1.0 then 0 else x.Floor
  }

  /** Stores the amounts as given and replaces both lists by default
      suppliers s1, s2, ... and default recipients r1, r2, ..., as many as
      the amounts' whole parts; the costs are kept. */
  function SetSupplierAndRecipientAmounts(d: Data, supplierAmount: real, recipientAmount: real): (d': Data)
    ensures d'.supplierAmount == Some(supplierAmount) && d'.recipientAmount == Some(recipientAmount)
    ensures |d'.suppliers| == ListLength(supplierAmount) && |d'.recipients| == ListLength(recipientAmount)
    ensures forall i :: 0 <= i < |d'.suppliers| ==>
      d'.suppliers[i].id == SupplierId(i + 1) && d'.suppliers[i].name == "S" + NatToString(i + 1) &&
      d'.suppliers[i].supply == 0.0 && d'.suppliers[i].sellingPrice == 0.0
    ensures forall j :: 0 <= j < |d'.recipients| ==>
      d'.recipients[j].id == RecipientId(j + 1) && d'.recipients[j].name == "R" + NatToString(j + 1) &&
      d'.recipients[j].demand == 0.0 && d'.recipients[j].purchasePrice == 0.0
    ensures d'.costs == d.costs
    ensures DistinctSupplierIds(d'.suppliers) && DistinctRecipientIds(d'.recipients)
    ensures NoneFictional(d'.suppliers, d'.recipients)
  {
    var suppliers := seq(ListLength(supplierAmount), k requires 0 <= k => DefaultSupplier(k));
    var recipients := seq(ListLength(recipientAmount), k requires 0 <= k => DefaultRecipient(k));
    assert forall i :: 0 <= i < |suppliers| ==> suppliers[i] == DefaultSupplier(i);
    assert forall j :: 0 <= j < |recipients| ==> recipients[j] == DefaultRecipient(j);
    var d' := d.(
      supplierAmount := Some(supplierAmount),
      recipientAmount := Some(recipientAmount),
      suppliers := suppliers,
      recipients := recipients);
    DefaultIdsDistinct(d'.suppliers, d'.recipients);
    DefaultIdsNotFictional(d'.suppliers, d'.recipients);
    d'
  }

  lemma DefaultIdsDistinct(suppliers: seq<Supplier>, recipients: seq<Recipient>)
    requires forall i :: 0 <= i < |suppliers| ==> suppliers[i].id == SupplierId(i + 1)
    requires forall j :: 0 <= j < |recipients| ==> recipients[j].id == RecipientId(j + 1)
    ensures DistinctSupplierIds(suppliers) && DistinctRecipientIds(recipients)
  {
    forall a, b | 0 <= a < b < |suppliers|
      ensures suppliers[a].id != suppliers[b].id
    {
      if suppliers[a].id == suppliers[b].id {
        assert SupplierId(a + 1)[1..] == NatToString(a + 1);
        assert SupplierId(b + 1)[1..] == NatToString(b + 1);
        NatToStringInjective(a + 1, b + 1);
      }
    }
    forall a, b | 0 <= a < b < |recipients|
      ensures recipients[a].id != recipients[b].id
    {
      if recipients[a].id == recipients[b].id {
        assert RecipientId(a + 1)[1..] == NatToString(a + 1);
        assert RecipientId(b + 1)[1..] == NatToString(b + 1);
        NatToStringInjective(a + 1, b + 1);
      }
    }
  }

  lemma DefaultIdsNotFictional(suppliers: seq<Supplier>, recipients: seq<Recipient>)
    requires forall i :: 0 <= i < |suppliers| ==> suppliers[i].id == SupplierId(i + 1)
    requires forall j :: 0 <= j < |recipients| ==> recipients[j].id == RecipientId(j + 1)
    ensures NoneFictional(suppliers, recipients)
  {
    forall i | 0 <= i < |suppliers|
      ensures !IsFictional(suppliers[i].id)
    {
      assert suppliers[i].id[0] == 's';
    }
    forall j | 0 <= j < |recipients|
      ensures !IsFictional(recipients[j].id)
    {
      assert recipients[j].id[0] == 'r';
    }
  }

  /** The fields a supplier update may set; None leaves a field alone. */
  datatype SupplierUpdate = SupplierUpdate(name: Option<string>, supply: Option<real>, sellingPrice: Option<real>)

  datatype RecipientUpdate = RecipientUpdate(name: Option<string>, demand: Option<real>, purchasePrice: Option<real>)

  function Pick<T>(update: Option<T>, current: T): T {
    match update
    case Some(v) => v
    case None => current
  }

  /** The supplier with the given fields of `u` written over its own. */
  function MergeSupplier(s: Supplier, u: SupplierUpdate): Supplier {
    Supplier(s.id, Pick(u.name, s.name), Pick(u.supply, s.supply), Pick(u.sellingPrice, s.sellingPrice))
  }

  function MergeRecipient(r: Recipient, u: RecipientUpdate): Recipient {
    Recipient(r.id, Pick(u.name, r.name), Pick(u.demand, r.demand), Pick(u.purchasePrice, r.purchasePrice))
  }

  /** Merges `u` into every supplier whose id is `id`; the rest of the
      data, the order and the ids stay as they were. */
  function UpdateSupplier(d: Data, id: string, u: SupplierUpdate): (d': Data)
    ensures |d'.suppliers| == |d.suppliers|
    ensures forall i :: 0 <= i < |d.suppliers| ==>
      d'.suppliers[i] == if d.suppliers[i].id == id then MergeSupplier(d.suppliers[i], u) else d.suppliers[i]
    ensures d'.(suppliers := d.suppliers) == d
  {
    d.(suppliers := seq(|d.suppliers|, i requires 0 <= i < |d.suppliers| =>
      if d.suppliers[i].id == id then MergeSupplier(d.suppliers[i], u) else d.suppliers[i]))
  }

  function UpdateRecipient(d: Data, id: string, u: RecipientUpdate): (d': Data)
    ensures |d'.recipients| == |d.recipients|
    ensures forall j :: 0 <= j < |d.recipients| ==>
      d'.recipients[j] == if d.recipients[j].id == id then MergeRecipient(d.recipients[j], u) else d.recipients[j]
    ensures d'.(recipients := d.recipients) == d
  {
    d.(recipients := seq(|d.recipients|, j requires 0 <= j < |d.recipients| =>
      if d.recipients[j].id == id then MergeRecipient(d.recipients[j], u) else d.recipients[j]))
  }

  /** An update names an unknown id: nothing changes. */
  lemma UpdateUnknownIdIsNoOp(d: Data, id: string, su: SupplierUpdate, ru: RecipientUpdate)
    ensures (forall i :: 0 <= i < |d.suppliers| ==> d.suppliers[i].id != id) ==> UpdateSupplier(d, id, su) == d
    ensures (forall j :: 0 <= j < |d.recipients| ==> d.recipients[j].id != id) ==> UpdateRecipient(d, id, ru) == d
  {
    if forall i :: 0 <= i < |d.suppliers| ==> d.suppliers[i].id != id {
      assert UpdateSupplier(d, id, su).suppliers == d.suppliers;
    }
    if forall j :: 0 <= j < |d.recipients| ==> d.recipients[j].id != id {
      assert UpdateRecipient(d, id, ru).recipients == d.recipients;
    }
  }

  /** Updating twice with the same fields is updating once. */
  lemma UpdateIdempotent(d: Data, id: string, su: SupplierUpdate, ru: RecipientUpdate)
    ensures UpdateSupplier(UpdateSupplier(d, id, su), id, su) == UpdateSupplier(d, id, su)
    ensures UpdateRecipient(UpdateRecipient(d, id, ru), id, ru) == UpdateRecipient(d, id, ru)
  {
    var once := UpdateSupplier(d, id, su);
    assert UpdateSupplier(once, id, su).suppliers == once.suppliers;
    var onceR := UpdateRecipient(d, id, ru);
    assert UpdateRecipient(onceR, id, ru).recipients == onceR.recipients;
  }

  function SetCosts(d: Data, costs: Costs): (d': Data)
    ensures d'.costs == Some(costs) && d'.(costs := d.costs) == d
  {
    d.(costs := Some(costs))
  }

  /** One step forward; PrevStep undoes it (StepsUndo). */
  function NextStep(step: int): (r: int)
    ensures r == step + 1
  {
    step + 1
  }

  /** One step back, but never below the first step. */
  function PrevStep(step: int): (r: int)
    ensures r >= 1
    ensures r == step - 1 || (step <= 1 && r == 1)
  {
    if step - 1 >= 1 then step - 1 else 1
  }

  /** Back undoes forward from any step; forward undoes back above step 1. */
  lemma StepsUndo(step: int)
    ensures step >= 1 ==> PrevStep(NextStep(step)) == step
    ensures step > 1 ==> NextStep(PrevStep(step)) == step
    ensures step <= 1 ==> PrevStep(step) == 1
  {
  }

  // ------------------------------------------------------------ the store

  datatype Action =
    | SetAmounts(supplierAmount: real, recipientAmount: real)
    | UpdateSupplierAction(supplierId: string, supplierUpdate: SupplierUpdate)
    | UpdateRecipientAction(recipientId: string, recipientUpdate: RecipientUpdate)
    | SetCostsAction(costs: Costs)
    | Reset
    | Next
    | Prev

  function ResetData(store: Store): (r: Store)
    ensures r == InitialStore
  {
    Store(EmptyData, 1)
  }

  function Apply(store: Store, action: Action): Store {
    match action
    case SetAmounts(s, r) => store.(data := SetSupplierAndRecipientAmounts(store.data, s, r))
    case UpdateSupplierAction(id, u) => store.(data := UpdateSupplier(store.data, id, u))
    case UpdateRecipientAction(id, u) => store.(data := UpdateRecipient(store.data, id, u))
    case SetCostsAction(costs) => store.(data := SetCosts(store.data, costs))
    case Reset => ResetData(store)
    case Next => store.(step := NextStep(store.step))
    case Prev => store.(step := PrevStep(store.step))
  }

  function ApplyAll(store: Store, actions: seq<Action>): Store
    decreases |actions|
  {
    if |actions| == 0 then store else ApplyAll(Apply(store, actions[0]), actions[1..])
  }

  /** What every reachable store satisfies: the step is at least 1, ids
      are distinct within each list, and no id looks fictional. */
  predicate WellFormed(store: Store) {
    store.step >= 1 &&
    DistinctSupplierIds(store.data.suppliers) && DistinctRecipientIds(store.data.recipients) &&
    NoneFictional(store.data.suppliers, store.data.recipients)
  }

  lemma ApplyKeepsWellFormed(store: Store, action: Action)
    requires WellFormed(store)
    ensures WellFormed(Apply(store, action))
  {
    match action
    case UpdateSupplierAction(id, u) =>
      var d' := UpdateSupplier(store.data, id, u);
      assert forall i :: 0 <= i < |d'.suppliers| ==> d'.suppliers[i].id == store.data.suppliers[i].id;
    case UpdateRecipientAction(id, u) =>
      var d' := UpdateRecipient(store.data, id, u);
      assert forall j :: 0 <= j < |d'.recipients| ==> d'.recipients[j].id == store.data.recipients[j].id;
    case _ =>
  }

  /** Whatever the user does, starting from the initial store. */
  lemma {:induction false} ReachableStoresAreWellFormed(store: Store, actions: seq<Action>)
    requires WellFormed(store)
    ensures WellFormed(ApplyAll(store, actions))
    decreases |actions|
  {
    if |actions| > 0 {
      ApplyKeepsWellFormed(store, actions[0]);
      ReachableStoresAreWellFormed(Apply(store, actions[0]), actions[1..]);
    }
  }

  lemma InitialStoreWellFormed()
    ensures WellFormed(InitialStore)
  {
  }

  // ------------------------------------------------------------ solving

  datatype SolverResult = SolverResult(
    solution: seq<seq<real>>,
    totalProfit: real,
    totalCost: real,
    totalIncome: real,
    balancedSuppliers: seq<Supplier>,
    balancedRecipients: seq<Recipient>)

  /** What the entry forms guarantee of the data the pipeline reads:
      quantities are non-negative and, once costs are set, every
      supplier/recipient pair has one. */
  predicate Solvable(d: Data) {
    NonNegativeQuantities(d.suppliers, d.recipients) &&
    (d.costs.Some? ==> CoversAll(d.costs.value, d.suppliers, d.recipients))
  }

  lemma BalanceKeepsNonNegative(suppliers: seq<Supplier>, recipients: seq<Recipient>, costs: Costs)
    requires NonNegativeQuantities(suppliers, recipients)
    ensures var b := BalanceProblem(suppliers, recipients, costs);
      NonNegativeQuantities(b.suppliers, b.recipients)
  {
    var b := BalanceProblem(suppliers, recipients, costs);
    assert forall i :: 0 <= i < |suppliers| ==> b.suppliers[i] == suppliers[i];
    assert forall j :: 0 <= j < |recipients| ==> b.recipients[j] == recipients[j];
  }

  /** The cells of an m-by-n allocation that carry something. */
  ghost function NonZeroCells(solution: seq<seq<real>>, m: nat, n: nat): set<Cell>
    requires IsMatrix(solution, m, n)
  {
    set i, j | 0 <= i < m && 0 <= j < n && solution[i][j] != 0.0 :: Cell(i, j)
  }

  /** What the pipeline promises of its result for the balanced problem
      `b`: the balanced lists are handed back; the solution is the greedy
      allocation `greedy` with 0.0001 in some of its empty cells, and a
      basic solution of m + n - 1 non-zero cells unless every cell is; that
      allocation meets every balanced supply and demand; and the totals are
      exactly those of the greedy allocation's contributing routes. The
      greedy allocation is the one the profit-driven rounds make on the
      balanced problem's profit matrix. */
  ghost predicate Solved(res: SolverResult, greedy: seq<seq<real>>, b: Balanced) {
    Delivered(res, b) &&
    IsMatrix(greedy, |b.suppliers|, |b.recipients|) &&
    (forall i, j :: 0 <= i < |b.suppliers| && 0 <= j < |b.recipients| ==>
      res.solution[i][j] == greedy[i][j] || (greedy[i][j] == 0.0 && res.solution[i][j] == Epsilon)) &&
    |NonZeroCells(res.solution, |b.suppliers|, |b.recipients|)| <= |b.suppliers| + |b.recipients| - 1 &&
    (|NonZeroCells(res.solution, |b.suppliers|, |b.recipients|)| == |b.suppliers| + |b.recipients| - 1 ||
     forall i, j :: 0 <= i < |b.suppliers| && 0 <= j < |b.recipients| ==> res.solution[i][j] != 0.0) &&
    (forall i :: 0 <= i < |b.suppliers| ==> Sum(greedy[i]) == b.suppliers[i].supply) &&
    (forall j :: 0 <= j < |b.recipients| ==> Sum(Column(greedy, j)) == b.recipients[j].demand) &&
    CoversAll(b.costs, b.suppliers, b.recipients) &&
    Greedy.GreedyAllocation(b.suppliers, b.recipients, Profit.ProfitMatrix(b.suppliers, b.recipients, b.costs), greedy) &&
    Totals.Ready(greedy, b.suppliers, b.recipients, b.costs) &&
    var flow := Totals.GridFlow(greedy, b.suppliers, b.recipients, b.costs, |b.suppliers|);
    res.totalCost == flow.cost && res.totalIncome == flow.income
  }

  /** The part of the promise that concerns the returned record alone: the
      balanced lists are handed back, the solution has their shape and is
      non-negative, and profit is income less cost. */
  predicate Delivered(res: SolverResult, b: Balanced) {
    res.balancedSuppliers == b.suppliers && res.balancedRecipients == b.recipients &&
    IsMatrix(res.solution, |b.suppliers|, |b.recipients|) &&
    (forall i, j :: 0 <= i < |b.suppliers| && 0 <= j < |b.recipients| ==> res.solution[i][j] >= 0.0) &&
    res.totalProfit == res.totalIncome - res.totalCost
  }

  /** The stages after balancing: profit matrix, allocation, totals. The
      totals count exactly what the greedy allocation (before the repair)
      carries between real parties. */
  method SolveBalanced(b: Balanced) returns (res: SolverResult, ghost greedy: seq<seq<real>>)
    requires |b.suppliers| > 0 && TotalSupply(b.suppliers) == TotalDemand(b.recipients)
    requires NonNegativeQuantities(b.suppliers, b.recipients)
    requires CoversAll(b.costs, b.suppliers, b.recipients)
    ensures Delivered(res, b)
    ensures Solved(res, greedy, b)
  {
    var profit := Profit.CreateProfitMatrix(b.suppliers, b.recipients, b.costs);
    var solution;
    ghost var nonZero;
    solution, greedy, nonZero := Solver.SolveVAM(b.suppliers, b.recipients, profit);
    var totals := Totals.CalculateTotals(solution, b.suppliers, b.recipients, b.costs);
    Totals.TotalsIgnoreNonContributing(solution, greedy, b.suppliers, b.recipients, b.costs, |b.suppliers|);
    assert nonZero == NonZeroCells(solution, |b.suppliers|, |b.recipients|) by {
      forall c | c in NonZeroCells(solution, |b.suppliers|, |b.recipients|)
        ensures c in nonZero
      {
        var i, j :| 0 <= i < |b.suppliers| && 0 <= j < |b.recipients| && solution[i][j] != 0.0 && c == Cell(i, j);
      }
      forall c | c in nonZero
        ensures c in NonZeroCells(solution, |b.suppliers|, |b.recipients|)
      {
        assert InBounds(c, |b.suppliers|, |b.recipients|) && solution[c.i][c.j] != 0.0;
      }
    }
    res := SolverResult(solution, totals.totalProfit, totals.totalCost, totals.totalIncome, b.suppliers, b.recipients);
  }

  /** No result without costs, suppliers and recipients. Otherwise the
      problem is balanced, and the result is what the later stages make
      of the balanced lists and costs. */
  method SolveMediatorProblem(d: Data) returns (r: Option<SolverResult>, ghost greedy: seq<seq<real>>)
    requires Solvable(d)
    ensures r.None? <==> d.costs.None? || |d.suppliers| == 0 || |d.recipients| == 0
    ensures r.Some? ==> Delivered(r.value, BalanceProblem(d.suppliers, d.recipients, d.costs.value))
    ensures r.Some? ==> Solved(r.value, greedy, BalanceProblem(d.suppliers, d.recipients, d.costs.value))
  {
    if d.costs.None? || |d.suppliers| == 0 || |d.recipients| == 0 {
      return None, [];
    }
    var b := BalanceProblem(d.suppliers, d.recipients, d.costs.value);
    BalancePreservesCoverage(d.suppliers, d.recipients, d.costs.value);
    BalanceKeepsNonNegative(d.suppliers, d.recipients, d.costs.value);
    var res;
    res, greedy := SolveBalanced(b);
    r := Some(res);
  }
}
