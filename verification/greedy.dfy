/** The initial allocation: a greedy maximum-profit heuristic that always
    prefers genuine routes, followed by the degeneracy repair that pads the
    allocation with epsilon cells until it has m + n - 1 occupied cells. */
module Greedy {
  import opened Entities

  /** Remaining supply and demand, and the rows and columns already
      eliminated, as the allocator's main loop keeps them. */
  datatype Remaining = Remaining(supply: seq<real>, demand: seq<real>, eliminatedRows: set<nat>, eliminatedCols: set<nat>)

  predicate Shaped(suppliers: seq<Supplier>, recipients: seq<Recipient>, profit: seq<seq<real>>, st: Remaining) {
    IsMatrix(profit, |suppliers|, |recipients|) &&
    |st.supply| == |suppliers| && |st.demand| == |recipients|
  }

  /** Neither endpoint of route (i, j) is a fictional entity. */
  predicate Genuine(suppliers: seq<Supplier>, recipients: seq<Recipient>, i: nat, j: nat)
    requires i < |suppliers| && j < |recipients|
  {
    !IsFictional(suppliers[i].id) && !IsFictional(recipients[j].id)
  }

  /** Route (i, j) may be picked in this round: its row and column are not
      eliminated, both sides still have something left, and, in the first
      scan, it is genuine. */
  predicate Eligible(suppliers: seq<Supplier>, recipients: seq<Recipient>, st: Remaining, genuineOnly: bool, i: nat, j: nat)
    requires i < |st.supply| == |suppliers| && j < |st.demand| == |recipients|
  {
    i !in st.eliminatedRows && j !in st.eliminatedCols &&
    st.supply[i] > 0.0 && st.demand[j] > 0.0 &&
    (genuineOnly ==> Genuine(suppliers, recipients, i, j))
  }

  /** One scan over all routes in row-major order, keeping the route of
      strictly greatest profit: the first of several equal maxima wins. In
      solveMaximumProfitMethod the running maximum starts at minus infinity, so the first
      eligible route is always taken; `found` plays that role here. */
  method ScanBest(suppliers: seq<Supplier>, recipients: seq<Recipient>, profit: seq<seq<real>>, st: Remaining, genuineOnly: bool)
    returns (found: bool, bi: nat, bj: nat)
    requires Shaped(suppliers, recipients, profit, st)
    ensures found <==>
      exists i: nat, j: nat :: i < |suppliers| && j < |recipients| && Eligible(suppliers, recipients, st, genuineOnly, i, j)
    ensures found ==> bi < |suppliers| && bj < |recipients| && Eligible(suppliers, recipients, st, genuineOnly, bi, bj)
    ensures found ==> forall i: nat, j: nat ::
      i < |suppliers| && j < |recipients| && Eligible(suppliers, recipients, st, genuineOnly, i, j) ==>
        profit[i][j] <= profit[bi][bj]
    ensures found ==> forall i: nat, j: nat ::
      i < |suppliers| && j < |recipients| && Eligible(suppliers, recipients, st, genuineOnly, i, j) && Before(i, j, bi, bj) ==>
        profit[i][j] < profit[bi][bj]
  {
    var m, n := |suppliers|, |recipients|;
    found, bi, bj := false, 0, 0;
    var i: nat := 0;
    while i < m
      invariant i <= m
      invariant found ==> bi < i && bj < n && Eligible(suppliers, recipients, st, genuineOnly, bi, bj)
      invariant forall i': nat, j': nat :: i' < i && j' < n && Eligible(suppliers, recipients, st, genuineOnly, i', j') ==>
        found && profit[i'][j'] <= profit[bi][bj]
      invariant found ==> forall i': nat, j': nat ::
        i' < i && j' < n && Eligible(suppliers, recipients, st, genuineOnly, i', j') && Before(i', j', bi, bj) ==>
          profit[i'][j'] < profit[bi][bj]
    {
      if i !in st.eliminatedRows {
        var j: nat := 0;
        while j < n
          invariant j <= n
          invariant found ==> (bi < m && bj < n && Before(bi, bj, i, j) &&
                               Eligible(suppliers, recipients, st, genuineOnly, bi, bj))
          invariant forall i': nat, j': nat ::
            i' < m && j' < n && Before(i', j', i, j) && Eligible(suppliers, recipients, st, genuineOnly, i', j') ==>
              found && profit[i'][j'] <= profit[bi][bj]
          invariant found ==> forall i': nat, j': nat ::
            (i' < m && j' < n && Before(i', j', i, j) && Eligible(suppliers, recipients, st, genuineOnly, i', j') &&
             Before(i', j', bi, bj)) ==> profit[i'][j'] < profit[bi][bj]
        {
          if j !in st.eliminatedCols && st.supply[i] > 0.0 && st.demand[j] > 0.0 {
            if !genuineOnly || Genuine(suppliers, recipients, i, j) {
              if !found || profit[i][j] > profit[bi][bj] {
                found, bi, bj := true, i, j;
              }
            }
          }
          j := j + 1;
        }
      }
      i := i + 1;
    }
  }

  /** One round's choice: the best genuine route if there is one, else the
      best route of all. */
  method SelectRoute(suppliers: seq<Supplier>, recipients: seq<Recipient>, profit: seq<seq<real>>, st: Remaining)
    returns (found: bool, bi: nat, bj: nat)
    requires Shaped(suppliers, recipients, profit, st)
    ensures found <==>
      exists i: nat, j: nat :: i < |suppliers| && j < |recipients| && Eligible(suppliers, recipients, st, false, i, j)
    ensures found ==> bi < |suppliers| && bj < |recipients| && Eligible(suppliers, recipients, st, false, bi, bj)
    // a genuine route is always preferred to a fictional one
    ensures found ==>
      (exists i: nat, j: nat :: i < |suppliers| && j < |recipients| && Eligible(suppliers, recipients, st, true, i, j)) ==>
        Genuine(suppliers, recipients, bi, bj)
    // within the class it is chosen from, the route is the first maximum in row-major order
    ensures found ==> var genuineOnly := Genuine(suppliers, recipients, bi, bj);
      (forall i: nat, j: nat ::
         i < |suppliers| && j < |recipients| && Eligible(suppliers, recipients, st, genuineOnly, i, j) ==>
           profit[i][j] <= profit[bi][bj]) &&
      (forall i: nat, j: nat ::
         (i < |suppliers| && j < |recipients| && Eligible(suppliers, recipients, st, genuineOnly, i, j) &&
          Before(i, j, bi, bj)) ==> profit[i][j] < profit[bi][bj])
  {
    found, bi, bj := ScanBest(suppliers, recipients, profit, st, true);
    if found {
      assert Eligible(suppliers, recipients, st, false, bi, bj);
    } else {
      found, bi, bj := ScanBest(suppliers, recipients, profit, st, false);
      if found && Genuine(suppliers, recipients, bi, bj) {
        assert Eligible(suppliers, recipients, st, true, bi, bj);
      }
    }
  }

  /** Writing `x` into cell (bi, bj) moves row bi's and column bj's sums by
      the difference and leaves every other row and column alone. */
  lemma PlaceEffects(a: seq<seq<real>>, m: nat, n: nat, bi: nat, bj: nat, x: real)
    requires IsMatrix(a, m, n) && bi < m && bj < n
    ensures var a' := a[bi := a[bi][bj := x]];
      IsMatrix(a', m, n) &&
      Sum(a'[bi]) == Sum(a[bi]) - a[bi][bj] + x &&
      Sum(Column(a', bj)) == Sum(Column(a, bj)) - a[bi][bj] + x &&
      (forall j :: 0 <= j < n && j != bj ==> Column(a', j) == Column(a, j))
  {
    var a' := a[bi := a[bi][bj := x]];
    SumUpdate(a[bi], bj, x);
    assert Column(a', bj) == Column(a, bj)[bi := x];
    SumUpdate(Column(a, bj), bi, x);
    forall j | 0 <= j < n && j != bj
      ensures Column(a', j) == Column(a, j)
    {
    }
  }

  predicate AllZero(s: seq<real>) {
    forall k :: 0 <= k < |s| ==> s[k] == 0.0
  }

  function Min(a: real, b: real): real {
    if a <= b then a else b
  }

  /** Conservation during the rounds: what a row (column) has received plus
      what it still has left is its original supply (demand). */
  predicate Conserved(suppliers: seq<Supplier>, recipients: seq<Recipient>, solution: seq<seq<real>>, st: Remaining)
    requires IsMatrix(solution, |suppliers|, |recipients|)
    requires |st.supply| == |suppliers| && |st.demand| == |recipients|
  {
    (forall i :: 0 <= i < |suppliers| ==>
       st.supply[i] >= 0.0 && Sum(solution[i]) + st.supply[i] == suppliers[i].supply) &&
    (forall j :: 0 <= j < |recipients| ==>
       st.demand[j] >= 0.0 && Sum(Column(solution, j)) + st.demand[j] == recipients[j].demand) &&
    Sum(st.supply) - Sum(st.demand) == TotalSupply(suppliers) - TotalDemand(recipients)
  }

  /** Eliminated rows and columns are in range and have nothing left. */
  predicate EliminationSound(st: Remaining, m: nat, n: nat)
    requires |st.supply| == m && |st.demand| == n
  {
    (forall x :: x in st.eliminatedRows ==> x < m && st.supply[x] == 0.0) &&
    (forall x :: x in st.eliminatedCols ==> x < n && st.demand[x] == 0.0)
  }

  /** Cells are non-negative, a non-zero cell lies in an eliminated row or
      column, and `occupied` is exactly the set of non-zero cells. */
  ghost predicate CellsSound(solution: seq<seq<real>>, occupied: set<Cell>, st: Remaining, m: nat, n: nat)
    requires IsMatrix(solution, m, n)
  {
    (forall i, j :: 0 <= i < m && 0 <= j < n ==> solution[i][j] >= 0.0) &&
    (forall i: nat, j: nat :: i < m && j < n && solution[i][j] != 0.0 ==>
       i in st.eliminatedRows || j in st.eliminatedCols) &&
    (forall c :: c in occupied <==> InBounds(c, m, n) && solution[c.i][c.j] != 0.0)
  }

  /** The bookkeeping of one round that sends goods along route (bi, bj). */
  function Allocate(st: Remaining, bi: nat, bj: nat): (st': Remaining)
    requires bi < |st.supply| && bj < |st.demand|
    ensures |st'.supply| == |st.supply| && |st'.demand| == |st.demand|
  {
    var allocation := Min(st.supply[bi], st.demand[bj]);
    var supply := st.supply[bi := st.supply[bi] - allocation];
    var demand := st.demand[bj := st.demand[bj] - allocation];
    Remaining(supply, demand,
      if supply[bi] == 0.0 then st.eliminatedRows + {bi} else st.eliminatedRows,
      if demand[bj] == 0.0 then st.eliminatedCols + {bj} else st.eliminatedCols)
  }

  lemma RoundConserves(suppliers: seq<Supplier>, recipients: seq<Recipient>, solution: seq<seq<real>>, st: Remaining, bi: nat, bj: nat)
    requires IsMatrix(solution, |suppliers|, |recipients|)
    requires |st.supply| == |suppliers| && |st.demand| == |recipients|
    requires bi < |suppliers| && bj < |recipients| && solution[bi][bj] == 0.0
    requires Conserved(suppliers, recipients, solution, st)
    requires Eligible(suppliers, recipients, st, false, bi, bj)
    ensures var x := Min(st.supply[bi], st.demand[bj]);
      var solution' := solution[bi := solution[bi][bj := x]];
      IsMatrix(solution', |suppliers|, |recipients|) &&
      Conserved(suppliers, recipients, solution', Allocate(st, bi, bj))
  {
    var m, n := |suppliers|, |recipients|;
    var x := Min(st.supply[bi], st.demand[bj]);
    var solution' := solution[bi := solution[bi][bj := x]];
    var st' := Allocate(st, bi, bj);
    PlaceEffects(solution, m, n, bi, bj, x);
    SumUpdate(st.supply, bi, st.supply[bi] - x);
    SumUpdate(st.demand, bj, st.demand[bj] - x);
    forall i | 0 <= i < m
      ensures st'.supply[i] >= 0.0 && Sum(solution'[i]) + st'.supply[i] == suppliers[i].supply
    {
      if i != bi { assert solution'[i] == solution[i]; }
    }
    forall j | 0 <= j < n
      ensures st'.demand[j] >= 0.0 && Sum(Column(solution', j)) + st'.demand[j] == recipients[j].demand
    {
    }
  }

  lemma RoundKeepsCells(suppliers: seq<Supplier>, recipients: seq<Recipient>, solution: seq<seq<real>>, occupied: set<Cell>, st: Remaining, bi: nat, bj: nat)
    requires IsMatrix(solution, |suppliers|, |recipients|)
    requires |st.supply| == |suppliers| && |st.demand| == |recipients|
    requires bi < |suppliers| && bj < |recipients|
    requires EliminationSound(st, |suppliers|, |recipients|)
    requires CellsSound(solution, occupied, st, |suppliers|, |recipients|)
    requires Eligible(suppliers, recipients, st, false, bi, bj)
    ensures solution[bi][bj] == 0.0 && Cell(bi, bj) !in occupied
    ensures var x := Min(st.supply[bi], st.demand[bj]);
      var solution' := solution[bi := solution[bi][bj := x]];
      var st' := Allocate(st, bi, bj);
      IsMatrix(solution', |suppliers|, |recipients|) &&
      EliminationSound(st', |suppliers|, |recipients|) &&
      CellsSound(solution', occupied + {Cell(bi, bj)}, st', |suppliers|, |recipients|) &&
      st.eliminatedRows <= st'.eliminatedRows && st.eliminatedCols <= st'.eliminatedCols &&
      |st'.eliminatedRows| + |st'.eliminatedCols| > |st.eliminatedRows| + |st.eliminatedCols|
  {
    var m, n := |suppliers|, |recipients|;
    var x := Min(st.supply[bi], st.demand[bj]);
    var solution' := solution[bi := solution[bi][bj := x]];
    var st' := Allocate(st, bi, bj);
    assert x > 0.0;
    assert st'.supply[bi] == 0.0 || st'.demand[bj] == 0.0;
    forall c | c in occupied + {Cell(bi, bj)}
      ensures InBounds(c, m, n) && solution'[c.i][c.j] != 0.0
    {
      if c != Cell(bi, bj) {
        assert solution'[c.i][c.j] == solution[c.i][c.j];
      }
    }
    forall c | InBounds(c, m, n) && solution'[c.i][c.j] != 0.0
      ensures c in occupied + {Cell(bi, bj)}
    {
      if c != Cell(bi, bj) {
        assert solution'[c.i][c.j] == solution[c.i][c.j];
      }
    }
  }

  /** When no route is live, one side has nothing left at all. */
  lemma NoRouteMeansExhausted(suppliers: seq<Supplier>, recipients: seq<Recipient>, st: Remaining)
    requires |st.supply| == |suppliers| && |st.demand| == |recipients|
    requires EliminationSound(st, |suppliers|, |recipients|)
    requires forall i :: 0 <= i < |suppliers| ==> st.supply[i] >= 0.0
    requires forall j :: 0 <= j < |recipients| ==> st.demand[j] >= 0.0
    requires !exists i: nat, j: nat :: i < |suppliers| && j < |recipients| && Eligible(suppliers, recipients, st, false, i, j)
    ensures AllZero(st.supply) || AllZero(st.demand)
  {
    if !AllZero(st.supply) {
      var i: nat :| i < |suppliers| && st.supply[i] != 0.0;
      forall j: nat | j < |recipients|
        ensures st.demand[j] == 0.0
      {
        assert !Eligible(suppliers, recipients, st, false, i, j);
      }
    }
  }

  lemma InitiallyConserved(suppliers: seq<Supplier>, recipients: seq<Recipient>)
    requires NonNegativeQuantities(suppliers, recipients)
    ensures Conserved(suppliers, recipients, ZeroMatrix(|suppliers|, |recipients|),
                      Remaining(Supplies(suppliers), Demands(recipients), {}, {}))
  {
    var a := ZeroMatrix(|suppliers|, |recipients|);
    forall i | 0 <= i < |suppliers| ensures Sum(a[i]) == 0.0 { SumAllZero(a[i]); }
    forall j | 0 <= j < |recipients| ensures Sum(Column(a, j)) == 0.0 { SumAllZero(Column(a, j)); }
  }

  /** Once one side has nothing left, every row (or every column) got its
      whole amount, and on a balanced problem both did. */
  lemma ExhaustedConclusion(suppliers: seq<Supplier>, recipients: seq<Recipient>, solution: seq<seq<real>>, st: Remaining)
    requires IsMatrix(solution, |suppliers|, |recipients|)
    requires |st.supply| == |suppliers| && |st.demand| == |recipients|
    requires Conserved(suppliers, recipients, solution, st)
    requires AllZero(st.supply) || AllZero(st.demand)
    ensures forall i :: 0 <= i < |suppliers| ==> Sum(solution[i]) <= suppliers[i].supply
    ensures forall j :: 0 <= j < |recipients| ==> Sum(Column(solution, j)) <= recipients[j].demand
    ensures (forall i :: 0 <= i < |suppliers| ==> Sum(solution[i]) == suppliers[i].supply) ||
            (forall j :: 0 <= j < |recipients| ==> Sum(Column(solution, j)) == recipients[j].demand)
    ensures TotalSupply(suppliers) == TotalDemand(recipients) ==>
      (forall i :: 0 <= i < |suppliers| ==> Sum(solution[i]) == suppliers[i].supply) &&
      (forall j :: 0 <= j < |recipients| ==> Sum(Column(solution, j)) == recipients[j].demand)
  {
    if TotalSupply(suppliers) == TotalDemand(recipients) {
      BalancedExhaustsBoth(suppliers, recipients, solution, st);
    }
  }

  /** On a balanced problem the conserved gap is zero, so when one side has
      nothing left neither has the other. */
  lemma BalancedExhaustsBoth(suppliers: seq<Supplier>, recipients: seq<Recipient>, solution: seq<seq<real>>, st: Remaining)
    requires IsMatrix(solution, |suppliers|, |recipients|)
    requires |st.supply| == |suppliers| && |st.demand| == |recipients|
    requires Conserved(suppliers, recipients, solution, st)
    requires AllZero(st.supply) || AllZero(st.demand)
    requires TotalSupply(suppliers) == TotalDemand(recipients)
    ensures AllZero(st.supply) && AllZero(st.demand)
  {
    if AllZero(st.supply) {
      SumAllZero(st.supply);
      SumZeroMeansAllZero(st.demand);
    } else {
      SumAllZero(st.demand);
      SumZeroMeansAllZero(st.supply);
    }
  }

  /** What holds between rounds: conservation, sound elimination and sound
      cells, and at most one occupied cell per eliminated row or column. */
  ghost predicate Progress(suppliers: seq<Supplier>, recipients: seq<Recipient>, profit: seq<seq<real>>,
                           solution: seq<seq<real>>, occupied: set<Cell>, st: Remaining)
  {
    Shaped(suppliers, recipients, profit, st) &&
    IsMatrix(solution, |suppliers|, |recipients|) &&
    Conserved(suppliers, recipients, solution, st) &&
    EliminationSound(st, |suppliers|, |recipients|) &&
    CellsSound(solution, occupied, st, |suppliers|, |recipients|) &&
    |occupied| <= |st.eliminatedRows| + |st.eliminatedCols| &&
    (|occupied| == 0 || |occupied| <= |suppliers| + |recipients| - 1)
  }

  /** A round on a live route, taken while some row and some column are
      still open, keeps the progress invariant and eliminates at least one
      more row or column. */
  lemma RoundProgresses(suppliers: seq<Supplier>, recipients: seq<Recipient>, profit: seq<seq<real>>,
                        solution: seq<seq<real>>, occupied: set<Cell>, st: Remaining, bi: nat, bj: nat)
    requires Progress(suppliers, recipients, profit, solution, occupied, st)
    requires |st.eliminatedRows| < |suppliers| && |st.eliminatedCols| < |recipients|
    requires bi < |suppliers| && bj < |recipients|
    requires Eligible(suppliers, recipients, st, false, bi, bj)
    ensures var x := Min(st.supply[bi], st.demand[bj]);
      var st' := Allocate(st, bi, bj);
      solution[bi][bj] == 0.0 &&
      Progress(suppliers, recipients, profit, solution[bi := solution[bi][bj := x]], occupied + {Cell(bi, bj)}, st') &&
      |st'.eliminatedRows| + |st'.eliminatedCols| > |st.eliminatedRows| + |st.eliminatedCols|
  {
    RoundKeepsCells(suppliers, recipients, solution, occupied, st, bi, bj);
    RoundConserves(suppliers, recipients, solution, st, bi, bj);
  }

  // ---------------------------------------------------------------- the run

  /** Route c is the one a round picks in state `st`, as SelectRoute finds
      it: a live route, genuine whenever a genuine route is live, and the
      first maximum, in row-major order, of the class it is picked from. */
  ghost predicate GreedyChoice(suppliers: seq<Supplier>, recipients: seq<Recipient>, profit: seq<seq<real>>,
                               st: Remaining, c: Cell)
  {
    Shaped(suppliers, recipients, profit, st) &&
    c.i < |suppliers| && c.j < |recipients| && Eligible(suppliers, recipients, st, false, c.i, c.j) &&
    ((exists i: nat, j: nat :: i < |suppliers| && j < |recipients| && Eligible(suppliers, recipients, st, true, i, j)) ==>
       Genuine(suppliers, recipients, c.i, c.j)) &&
    var genuineOnly := Genuine(suppliers, recipients, c.i, c.j);
    (forall i: nat, j: nat ::
       i < |suppliers| && j < |recipients| && Eligible(suppliers, recipients, st, genuineOnly, i, j) ==>
         profit[i][j] <= profit[c.i][c.j]) &&
    (forall i: nat, j: nat ::
       (i < |suppliers| && j < |recipients| && Eligible(suppliers, recipients, st, genuineOnly, i, j) &&
        Before(i, j, c.i, c.j)) ==> profit[i][j] < profit[c.i][c.j])
  }

  /** A state has at most one greedy choice: ties go to the route scanned
      first. */
  lemma GreedyChoiceUnique(suppliers: seq<Supplier>, recipients: seq<Recipient>, profit: seq<seq<real>>,
                           st: Remaining, a: Cell, b: Cell)
    requires GreedyChoice(suppliers, recipients, profit, st, a)
    requires GreedyChoice(suppliers, recipients, profit, st, b)
    ensures a == b
  {
    if Genuine(suppliers, recipients, a.i, a.j) {
      assert Eligible(suppliers, recipients, st, true, a.i, a.j);
    }
    if Genuine(suppliers, recipients, b.i, b.j) {
      assert Eligible(suppliers, recipients, st, true, b.i, b.j);
    }
    var genuineOnly := Genuine(suppliers, recipients, a.i, a.j);
    assert Eligible(suppliers, recipients, st, genuineOnly, a.i, a.j);
    assert Eligible(suppliers, recipients, st, genuineOnly, b.i, b.j);
    if a != b && !Before(a.i, a.j, b.i, b.j) {
      assert Before(b.i, b.j, a.i, a.j);
    }
  }

  /** What a round ships along route c in state `st`. */
  function Shipment(st: Remaining, c: Cell): real
    requires c.i < |st.supply| && c.j < |st.demand|
  {
    Min(st.supply[c.i], st.demand[c.j])
  }

  /** The state before the first round: the original amounts, nothing
      eliminated. */
  function Start(suppliers: seq<Supplier>, recipients: seq<Recipient>): Remaining {
    Remaining(Supplies(suppliers), Demands(recipients), {}, {})
  }

  /** Round k of a run: it takes the greedy choice rounds[k] in states[k],
      writes its shipment into that cell and leads to states[k + 1]. */
  ghost predicate RoundTaken(suppliers: seq<Supplier>, recipients: seq<Recipient>, profit: seq<seq<real>>,
                             rounds: seq<Cell>, states: seq<Remaining>, solution: seq<seq<real>>, k: nat)
  {
    k < |rounds| && k + 1 < |states| &&
    GreedyChoice(suppliers, recipients, profit, states[k], rounds[k]) &&
    states[k + 1] == Allocate(states[k], rounds[k].i, rounds[k].j) &&
    rounds[k].i < |solution| && rounds[k].j < |solution[rounds[k].i]| &&
    solution[rounds[k].i][rounds[k].j] == Shipment(states[k], rounds[k])
  }

  /** `rounds` and `states` record a run of the main loop from `st0` on
      `solution0`: every round is taken as RoundTaken says, and cells no
      round took keep their value from `solution0`. */
  ghost predicate Run(suppliers: seq<Supplier>, recipients: seq<Recipient>, profit: seq<seq<real>>,
                      st0: Remaining, solution0: seq<seq<real>>,
                      rounds: seq<Cell>, states: seq<Remaining>, solution: seq<seq<real>>)
  {
    IsMatrix(solution0, |suppliers|, |recipients|) && IsMatrix(solution, |suppliers|, |recipients|) &&
    |states| == |rounds| + 1 && states[0] == st0 &&
    (forall k :: 0 <= k < |rounds| ==> RoundTaken(suppliers, recipients, profit, rounds, states, solution, k)) &&
    (forall i, j :: 0 <= i < |suppliers| && 0 <= j < |recipients| && Cell(i, j) !in rounds ==>
       solution[i][j] == solution0[i][j])
  }

  /** No route is live, so the main loop is over. */
  predicate Stopped(suppliers: seq<Supplier>, recipients: seq<Recipient>, st: Remaining) {
    |st.supply| == |suppliers| && |st.demand| == |recipients| &&
    forall i: nat, j: nat :: i < |suppliers| && j < |recipients| ==> !Eligible(suppliers, recipients, st, false, i, j)
  }

  /** `solution` is what the greedy phase leaves: a run from the start on
      the zero matrix, carried on until no route is live. */
  ghost predicate GreedyAllocation(suppliers: seq<Supplier>, recipients: seq<Recipient>, profit: seq<seq<real>>,
                                   solution: seq<seq<real>>)
  {
    exists rounds: seq<Cell>, states: seq<Remaining> ::
      Run(suppliers, recipients, profit, Start(suppliers, recipients), ZeroMatrix(|suppliers|, |recipients|),
          rounds, states, solution) &&
      Stopped(suppliers, recipients, states[|rounds|])
  }

  /** One more round extends a run: the chosen cell was still empty, so no
      earlier round's shipment is overwritten. */
  lemma RunExtends(suppliers: seq<Supplier>, recipients: seq<Recipient>, profit: seq<seq<real>>,
                   st0: Remaining, solution0: seq<seq<real>>,
                   rounds: seq<Cell>, states: seq<Remaining>, solution: seq<seq<real>>, c: Cell)
    requires Run(suppliers, recipients, profit, st0, solution0, rounds, states, solution)
    requires GreedyChoice(suppliers, recipients, profit, states[|rounds|], c)
    requires solution[c.i][c.j] == 0.0
    ensures var st := states[|rounds|];
      Run(suppliers, recipients, profit, st0, solution0, rounds + [c], states + [Allocate(st, c.i, c.j)],
          solution[c.i := solution[c.i][c.j := Shipment(st, c)]])
  {
    var m, n := |suppliers|, |recipients|;
    var st := states[|rounds|];
    var rounds', states' := rounds + [c], states + [Allocate(st, c.i, c.j)];
    var solution' := solution[c.i := solution[c.i][c.j := Shipment(st, c)]];
    forall k | 0 <= k < |rounds|
      ensures rounds[k] != c
    {
      assert RoundTaken(suppliers, recipients, profit, rounds, states, solution, k);
      assert solution[rounds[k].i][rounds[k].j] > 0.0;
    }
    forall k | 0 <= k < |rounds'|
      ensures RoundTaken(suppliers, recipients, profit, rounds', states', solution', k)
    {
      if k < |rounds| {
        assert RoundTaken(suppliers, recipients, profit, rounds, states, solution, k);
        assert rounds'[k] == rounds[k] && states'[k] == states[k] && states'[k + 1] == states[k + 1];
        assert solution'[rounds[k].i][rounds[k].j] == solution[rounds[k].i][rounds[k].j];
      }
    }
    forall i, j | 0 <= i < m && 0 <= j < n && Cell(i, j) !in rounds'
      ensures solution'[i][j] == solution0[i][j]
    {
      assert Cell(i, j) !in rounds && Cell(i, j) != c;
    }
  }

  /** Two runs from the same start agree for as long as both last. */
  lemma {:induction false} RunsAgree(suppliers: seq<Supplier>, recipients: seq<Recipient>, profit: seq<seq<real>>,
                                     st0: Remaining, solution0: seq<seq<real>>,
                                     r1: seq<Cell>, s1: seq<Remaining>, a: seq<seq<real>>,
                                     r2: seq<Cell>, s2: seq<Remaining>, b: seq<seq<real>>, k: nat)
    requires Run(suppliers, recipients, profit, st0, solution0, r1, s1, a)
    requires Run(suppliers, recipients, profit, st0, solution0, r2, s2, b)
    requires k <= |r1| && k <= |r2|
    ensures r1[..k] == r2[..k] && s1[k] == s2[k]
  {
    if k > 0 {
      RunsAgree(suppliers, recipients, profit, st0, solution0, r1, s1, a, r2, s2, b, k - 1);
      assert RoundTaken(suppliers, recipients, profit, r1, s1, a, k - 1);
      assert RoundTaken(suppliers, recipients, profit, r2, s2, b, k - 1);
      GreedyChoiceUnique(suppliers, recipients, profit, s1[k - 1], r1[k - 1], r2[k - 1]);
      assert r1[..k] == r1[..k - 1] + [r1[k - 1]];
      assert r2[..k] == r2[..k - 1] + [r2[k - 1]];
    }
  }

  /** Before each of its rounds, a run had a live route. */
  lemma RoundMeansNotStopped(suppliers: seq<Supplier>, recipients: seq<Recipient>, profit: seq<seq<real>>,
                             st0: Remaining, solution0: seq<seq<real>>,
                             rounds: seq<Cell>, states: seq<Remaining>, solution: seq<seq<real>>, k: nat)
    requires Run(suppliers, recipients, profit, st0, solution0, rounds, states, solution)
    requires k < |rounds|
    ensures !Stopped(suppliers, recipients, states[k])
  {
    assert RoundTaken(suppliers, recipients, profit, rounds, states, solution, k);
  }

  /** A run that stops is as long as any other run from the same start. */
  lemma StoppedRunIsLongest(suppliers: seq<Supplier>, recipients: seq<Recipient>, profit: seq<seq<real>>,
                            st0: Remaining, solution0: seq<seq<real>>,
                            r1: seq<Cell>, s1: seq<Remaining>, a: seq<seq<real>>,
                            r2: seq<Cell>, s2: seq<Remaining>, b: seq<seq<real>>)
    requires Run(suppliers, recipients, profit, st0, solution0, r1, s1, a)
    requires Run(suppliers, recipients, profit, st0, solution0, r2, s2, b)
    requires Stopped(suppliers, recipients, s1[|r1|])
    ensures |r2| <= |r1|
  {
    if |r1| < |r2| {
      RunsAgree(suppliers, recipients, profit, st0, solution0, r1, s1, a, r2, s2, b, |r1|);
      RoundMeansNotStopped(suppliers, recipients, profit, st0, solution0, r2, s2, b, |r1|);
      assert false;
    }
  }

  /** The greedy allocation is determined by the problem: the rounds are
      forced one by one, and so is every cell. */
  lemma GreedyAllocationUnique(suppliers: seq<Supplier>, recipients: seq<Recipient>, profit: seq<seq<real>>,
                               a: seq<seq<real>>, b: seq<seq<real>>)
    requires GreedyAllocation(suppliers, recipients, profit, a)
    requires GreedyAllocation(suppliers, recipients, profit, b)
    ensures a == b
  {
    var m, n := |suppliers|, |recipients|;
    var st0, zero := Start(suppliers, recipients), ZeroMatrix(m, n);
    var r1, s1 :| Run(suppliers, recipients, profit, st0, zero, r1, s1, a) && Stopped(suppliers, recipients, s1[|r1|]);
    var r2, s2 :| Run(suppliers, recipients, profit, st0, zero, r2, s2, b) && Stopped(suppliers, recipients, s2[|r2|]);
    StoppedRunIsLongest(suppliers, recipients, profit, st0, zero, r1, s1, a, r2, s2, b);
    StoppedRunIsLongest(suppliers, recipients, profit, st0, zero, r2, s2, b, r1, s1, a);
    RunsAgree(suppliers, recipients, profit, st0, zero, r1, s1, a, r2, s2, b, |r1|);
    assert r1 == r1[..|r1|] && r2 == r2[..|r2|];
    forall i | 0 <= i < m
      ensures a[i] == b[i]
    {
      forall j | 0 <= j < n
        ensures a[i][j] == b[i][j]
      {
        if Cell(i, j) in r1 {
          var k :| 0 <= k < |r1| && r1[k] == Cell(i, j);
          RunsAgree(suppliers, recipients, profit, st0, zero, r1, s1, a, r2, s2, b, k);
          assert RoundTaken(suppliers, recipients, profit, r1, s1, a, k);
          assert RoundTaken(suppliers, recipients, profit, r2, s2, b, k);
          assert r2[k] == r1[k];
        }
      }
    }
  }

  /** On two suppliers and two recipients of 5 each, with profit 10 on the
      diagonal and 1 off it, the greedy allocation puts all 5 units of
      supplier 0 on its most profitable route first. */
  lemma BestRouteFilledFirst(a: seq<seq<real>>)
    requires GreedyAllocation([Supplier("s1", "S1", 5.0, 0.0), Supplier("s2", "S2", 5.0, 0.0)],
                              [Recipient("r1", "R1", 5.0, 0.0), Recipient("r2", "R2", 5.0, 0.0)],
                              [[10.0, 1.0], [1.0, 10.0]], a)
    ensures a[0][0] == 5.0
  {
    var suppliers := [Supplier("s1", "S1", 5.0, 0.0), Supplier("s2", "S2", 5.0, 0.0)];
    var recipients := [Recipient("r1", "R1", 5.0, 0.0), Recipient("r2", "R2", 5.0, 0.0)];
    var profit := [[10.0, 1.0], [1.0, 10.0]];
    var st0 := Start(suppliers, recipients);
    var rounds, states :| Run(suppliers, recipients, profit, st0, ZeroMatrix(2, 2), rounds, states, a) &&
                          Stopped(suppliers, recipients, states[|rounds|]);
    assert !IsFictional("s1") && !IsFictional("s2") && !IsFictional("r1") && !IsFictional("r2");
    assert Eligible(suppliers, recipients, st0, true, 0, 0);
    forall i: nat, j: nat | i < 2 && j < 2
      ensures profit[i][j] <= 10.0
    {
    }
    assert GreedyChoice(suppliers, recipients, profit, st0, Cell(0, 0));
    if |rounds| == 0 {
      assert false;
    }
    assert RoundTaken(suppliers, recipients, profit, rounds, states, a, 0);
    GreedyChoiceUnique(suppliers, recipients, profit, st0, rounds[0], Cell(0, 0));
  }

  /** The main loop of the allocator: rounds run until every row or every
      column is eliminated, or until no route is live. */
  method RunRounds(suppliers: seq<Supplier>, recipients: seq<Recipient>, profit: seq<seq<real>>,
                   solution0: seq<seq<real>>, occupied0: set<Cell>, st0: Remaining)
    returns (solution: seq<seq<real>>, occupied: set<Cell>, st: Remaining,
             ghost rounds: seq<Cell>, ghost states: seq<Remaining>)
    requires Progress(suppliers, recipients, profit, solution0, occupied0, st0)
    ensures Progress(suppliers, recipients, profit, solution, occupied, st)
    ensures AllZero(st.supply) || AllZero(st.demand)
    ensures Run(suppliers, recipients, profit, st0, solution0, rounds, states, solution)
    ensures states[|rounds|] == st && Stopped(suppliers, recipients, st)
  {
    var m, n := |suppliers|, |recipients|;
    solution, occupied, st := solution0, occupied0, st0;
    rounds, states := [], [st0];
    while |st.eliminatedRows| < m && |st.eliminatedCols| < n
      invariant Progress(suppliers, recipients, profit, solution, occupied, st)
      invariant Run(suppliers, recipients, profit, st0, solution0, rounds, states, solution)
      invariant states[|rounds|] == st
      decreases m - |st.eliminatedRows| + n - |st.eliminatedCols|
    {
      BoundedSetSize(st.eliminatedRows, m);
      BoundedSetSize(st.eliminatedCols, n);
      var found, bi, bj := SelectRoute(suppliers, recipients, profit, st);
      if !found {
        NoRouteMeansExhausted(suppliers, recipients, st);
        return;
      }
      assert GreedyChoice(suppliers, recipients, profit, st, Cell(bi, bj));
      RoundProgresses(suppliers, recipients, profit, solution, occupied, st, bi, bj);
      RunExtends(suppliers, recipients, profit, st0, solution0, rounds, states, solution, Cell(bi, bj));
      solution := solution[bi := solution[bi][bj := Min(st.supply[bi], st.demand[bj])]];
      occupied := occupied + {Cell(bi, bj)};
      rounds, states := rounds + [Cell(bi, bj)], states + [Allocate(st, bi, bj)];
      st := Allocate(st, bi, bj);
    }

    if |st.eliminatedRows| >= m {
      FullSetHoldsAll(st.eliminatedRows, m);
    } else {
      FullSetHoldsAll(st.eliminatedCols, n);
    }
  }

  /** The greedy phase of the allocator (before the degeneracy repair).
      `occupied` is the set of cells that were given goods. */
  method AllocateGreedily(suppliers: seq<Supplier>, recipients: seq<Recipient>, profit: seq<seq<real>>)
    returns (solution: seq<seq<real>>, occupied: set<Cell>)
    requires IsMatrix(profit, |suppliers|, |recipients|)
    requires NonNegativeQuantities(suppliers, recipients)
    ensures IsMatrix(solution, |suppliers|, |recipients|)
    ensures forall i, j :: 0 <= i < |suppliers| && 0 <= j < |recipients| ==> solution[i][j] >= 0.0
    ensures forall c :: c in occupied <==> InBounds(c, |suppliers|, |recipients|) && solution[c.i][c.j] != 0.0
    // each round eliminates a row or a column, and the last round leaves one of each
    ensures |suppliers| > 0 && |recipients| > 0 ==> |occupied| <= |suppliers| + |recipients| - 1
    ensures forall i :: 0 <= i < |suppliers| ==> Sum(solution[i]) <= suppliers[i].supply
    ensures forall j :: 0 <= j < |recipients| ==> Sum(Column(solution, j)) <= recipients[j].demand
    // the loop stops only once one side is exhausted entirely
    ensures (forall i :: 0 <= i < |suppliers| ==> Sum(solution[i]) == suppliers[i].supply) ||
            (forall j :: 0 <= j < |recipients| ==> Sum(Column(solution, j)) == recipients[j].demand)
    // on a balanced problem every supply and every demand is met exactly
    ensures TotalSupply(suppliers) == TotalDemand(recipients) ==>
      (forall i :: 0 <= i < |suppliers| ==> Sum(solution[i]) == suppliers[i].supply) &&
      (forall j :: 0 <= j < |recipients| ==> Sum(Column(solution, j)) == recipients[j].demand)
    // and it is the allocation the greedy rounds make, round by round
    ensures GreedyAllocation(suppliers, recipients, profit, solution)
  {
    var m, n := |suppliers|, |recipients|;
    var st := Start(suppliers, recipients);
    InitiallyConserved(suppliers, recipients);
    assert CellsSound(ZeroMatrix(m, n), {}, st, m, n);
    ghost var rounds, states;
    solution, occupied, st, rounds, states := RunRounds(suppliers, recipients, profit, ZeroMatrix(m, n), {}, st);
    ExhaustedConclusion(suppliers, recipients, solution, st);
  }

  /** Cell (i, j) may receive an epsilon: it is not occupied and holds 0. */
  predicate Fillable(solution: seq<seq<real>>, occupied: set<Cell>, i: nat, j: nat)
    requires i < |solution| && j < |solution[i]|
  {
    Cell(i, j) !in occupied && solution[i][j] == 0.0
  }

  /** Degeneracy repair: scanning row-major, writes Epsilon into free zero
      cells until m + n - 1 cells are occupied. */
  method EnsureBasicSolution(solution: seq<seq<real>>, m: nat, n: nat, occupied: set<Cell>)
    returns (result: seq<seq<real>>, occupied': set<Cell>)
    requires IsMatrix(solution, m, n)
    requires forall c :: c in occupied ==> InBounds(c, m, n)
    ensures IsMatrix(result, m, n)
    // occupied or non-zero cells are never touched
    ensures forall i: nat, j: nat :: i < m && j < n && !Fillable(solution, occupied, i, j) ==>
      result[i][j] == solution[i][j]
    // a changed cell was a free zero cell and now holds exactly Epsilon
    ensures forall i: nat, j: nat :: i < m && j < n && result[i][j] != solution[i][j] ==>
      Fillable(solution, occupied, i, j) && result[i][j] == Epsilon
    ensures forall c :: c in occupied' <==>
      c in occupied || (InBounds(c, m, n) && result[c.i][c.j] != solution[c.i][c.j])
    // nothing to do when the count is already reached
    ensures |occupied| >= m + n - 1 ==> result == solution && occupied' == occupied
    // otherwise stop exactly at the count, or when every free zero cell is used
    ensures |occupied| < m + n - 1 ==> |occupied'| <= m + n - 1
    ensures |occupied'| >= m + n - 1 ||
      forall i: nat, j: nat :: i < m && j < n && Fillable(solution, occupied, i, j) ==> result[i][j] == Epsilon
    // the filled cells are the first free zero cells in row-major order
    ensures forall i: nat, j: nat, i': nat, j': nat ::
      (i < m && j < n && i' < m && j' < n && result[i][j] != solution[i][j] &&
       Fillable(solution, occupied, i', j') && Before(i', j', i, j)) ==> result[i'][j'] == Epsilon
  {
    var required := m + n - 1;
    result, occupied' := solution, occupied;
    if |occupied| < required {
      ghost var fi: nat, fj: nat := 0, 0;
      var i: nat := 0;
      while i < m && |occupied'| < required
        invariant i <= m
        invariant IsMatrix(result, m, n)
        invariant |occupied'| <= required
        invariant fi <= m && fj <= n
        invariant |occupied'| < required ==> fi == i && fj == 0
        invariant fi <= i
        invariant forall c :: c in occupied' <==>
          c in occupied || (InBounds(c, m, n) && result[c.i][c.j] != solution[c.i][c.j])
        invariant forall i': nat, j': nat :: i' < m && j' < n && result[i'][j'] != solution[i'][j'] ==>
          Fillable(solution, occupied, i', j') && result[i'][j'] == Epsilon && Before(i', j', fi, fj)
        invariant forall i': nat, j': nat ::
          i' < m && j' < n && Fillable(solution, occupied, i', j') && Before(i', j', fi, fj) ==> result[i'][j'] == Epsilon
      {
        var j: nat := 0;
        while j < n && |occupied'| < required
          invariant j <= n
          invariant IsMatrix(result, m, n)
          invariant |occupied'| <= required
          invariant fi <= m && fj <= n
          invariant fi == i && fj == j
          invariant forall c :: c in occupied' <==>
            c in occupied || (InBounds(c, m, n) && result[c.i][c.j] != solution[c.i][c.j])
          invariant forall i': nat, j': nat :: i' < m && j' < n && result[i'][j'] != solution[i'][j'] ==>
            Fillable(solution, occupied, i', j') && result[i'][j'] == Epsilon && Before(i', j', fi, fj)
          invariant forall i': nat, j': nat ::
            i' < m && j' < n && Fillable(solution, occupied, i', j') && Before(i', j', fi, fj) ==> result[i'][j'] == Epsilon
        {
          if Cell(i, j) !in occupied' && result[i][j] == 0.0 {
            assert result[i][j] == solution[i][j];
            result := result[i := result[i][j := Epsilon]];
            occupied' := occupied' + {Cell(i, j)};
          }
          j := j + 1;
          fj := j;
        }
        if |occupied'| < required {
          fi, fj := i + 1, 0;
        }
        i := i + 1;
      }
    }
  }

  /** The allocator as a whole: greedy rounds, then degeneracy repair. The
      ghost `greedy` is the allocation before the repair and `occupied` the
      non-zero cells of the result: m + n - 1 of them (a basic solution),
      unless even filling every cell cannot reach that many. */
  method SolveMaximumProfitMethod(suppliers: seq<Supplier>, recipients: seq<Recipient>, profit: seq<seq<real>>)
    returns (solution: seq<seq<real>>, ghost greedy: seq<seq<real>>, ghost occupied: set<Cell>)
    requires IsMatrix(profit, |suppliers|, |recipients|)
    requires NonNegativeQuantities(suppliers, recipients)
    ensures IsMatrix(solution, |suppliers|, |recipients|) && IsMatrix(greedy, |suppliers|, |recipients|)
    ensures forall i, j :: 0 <= i < |suppliers| && 0 <= j < |recipients| ==> solution[i][j] >= 0.0
    // the repair only turns zero cells of the greedy allocation into Epsilon
    ensures forall i, j :: 0 <= i < |suppliers| && 0 <= j < |recipients| ==>
      solution[i][j] == greedy[i][j] || (greedy[i][j] == 0.0 && solution[i][j] == Epsilon)
    ensures forall i :: 0 <= i < |suppliers| ==> Sum(greedy[i]) <= suppliers[i].supply
    ensures forall j :: 0 <= j < |recipients| ==> Sum(Column(greedy, j)) <= recipients[j].demand
    ensures TotalSupply(suppliers) == TotalDemand(recipients) ==>
      (forall i :: 0 <= i < |suppliers| ==> Sum(greedy[i]) == suppliers[i].supply) &&
      (forall j :: 0 <= j < |recipients| ==> Sum(Column(greedy, j)) == recipients[j].demand)
    ensures forall c :: c in occupied <==> InBounds(c, |suppliers|, |recipients|) && solution[c.i][c.j] != 0.0
    ensures |suppliers| > 0 && |recipients| > 0 ==> |occupied| <= |suppliers| + |recipients| - 1
    ensures |occupied| == |suppliers| + |recipients| - 1 ||
      forall i, j :: 0 <= i < |suppliers| && 0 <= j < |recipients| ==> solution[i][j] != 0.0
    // the greedy part is the allocation the profit-driven rounds make
    ensures GreedyAllocation(suppliers, recipients, profit, greedy)
  {
    var m, n := |suppliers|, |recipients|;
    var initial, given := AllocateGreedily(suppliers, recipients, profit);
    greedy := initial;
    var filled;
    solution, filled := EnsureBasicSolution(initial, m, n, given);
    occupied := filled;
    if |filled| != m + n - 1 {
      forall i, j | 0 <= i < m && 0 <= j < n
        ensures solution[i][j] != 0.0
      {
        if Fillable(initial, given, i, j) {
          assert solution[i][j] == Epsilon;
        }
      }
    }
  }
}
