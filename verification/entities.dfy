/** Data model shared by every stage of the mediator solver: suppliers,
    recipients, the nested cost record, allocation matrices and the sums
    used to state conservation. Quantities and prices are exact reals. */
module Entities {

  datatype Option<+T> = None | Some(value: T)

  /** A supplier: `supply` units available, bought from it at `sellingPrice`. */
  datatype Supplier = Supplier(id: string, name: string, supply: real, sellingPrice: real)

  /** A recipient: `demand` units wanted, sold to it at `purchasePrice`. */
  datatype Recipient = Recipient(id: string, name: string, demand: real, purchasePrice: real)

  /** Unit transport cost, keyed first by recipient id, then by supplier id. */
  type Costs = map<string, map<string, real>>

  /** A cell (supplier index, recipient index) of an allocation matrix. */
  datatype Cell = Cell(i: nat, j: nat)

  /** Reserved id prefix of the entities the balancer invents. */
  const FictionalPrefix: string := "fictional_"
  const FictionalSupplierId: string := "fictional_s"
  const FictionalRecipientId: string := "fictional_r"

  /** Threshold below which (inclusive) an allocation counts as empty, and
      the value the degeneracy repair writes into a filled cell. */
  const Epsilon: real := 0.0001

  predicate IsFictional(id: string) {
    |FictionalPrefix| <= |id| && id[..|FictionalPrefix|] == FictionalPrefix
  }

  predicate HasCost(costs: Costs, recipientId: string, supplierId: string) {
    recipientId in costs && supplierId in costs[recipientId]
  }

  /** Every supplier/recipient pair has a cost entry. */
  predicate CoversAll(costs: Costs, suppliers: seq<Supplier>, recipients: seq<Recipient>) {
    forall i, j {:trigger suppliers[i], recipients[j]} :: 0 <= i < |suppliers| && 0 <= j < |recipients| ==>
      HasCost(costs, recipients[j].id, suppliers[i].id)
  }

  predicate IsMatrix(a: seq<seq<real>>, m: nat, n: nat) {
    |a| == m && forall i :: 0 <= i < m ==> |a[i]| == n
  }

  predicate InBounds(c: Cell, m: nat, n: nat) {
    c.i < m && c.j < n
  }

  /** Row-major order: cell (i1, j1) is scanned before cell (i2, j2). */
  predicate Before(i1: nat, j1: nat, i2: nat, j2: nat) {
    i1 < i2 || (i1 == i2 && j1 < j2)
  }

  predicate NonNegativeQuantities(suppliers: seq<Supplier>, recipients: seq<Recipient>) {
    (forall i :: 0 <= i < |suppliers| ==> suppliers[i].supply >= 0.0) &&
    (forall j :: 0 <= j < |recipients| ==> recipients[j].demand >= 0.0)
  }

  // ---------------------------------------------------------------- sums

  function Sum(s: seq<real>): real {
    if |s| == 0 then 0.0 else Sum(s[..|s| - 1]) + s[|s| - 1]
  }

  function Supplies(suppliers: seq<Supplier>): (r: seq<real>)
    ensures |r| == |suppliers|
    ensures forall i :: 0 <= i < |r| ==> r[i] == suppliers[i].supply
  {
    seq(|suppliers|, i requires 0 <= i < |suppliers| => suppliers[i].supply)
  }

  function Demands(recipients: seq<Recipient>): (r: seq<real>)
    ensures |r| == |recipients|
    ensures forall j :: 0 <= j < |r| ==> r[j] == recipients[j].demand
  {
    seq(|recipients|, j requires 0 <= j < |recipients| => recipients[j].demand)
  }

  function TotalSupply(suppliers: seq<Supplier>): real {
    Sum(Supplies(suppliers))
  }

  function TotalDemand(recipients: seq<Recipient>): real {
    Sum(Demands(recipients))
  }

  /** Column `j` of a matrix whose rows all have more than `j` entries. */
  function Column(a: seq<seq<real>>, j: nat): (c: seq<real>)
    requires forall i :: 0 <= i < |a| ==> j < |a[i]|
    ensures |c| == |a|
    ensures forall i :: 0 <= i < |a| ==> c[i] == a[i][j]
  {
    seq(|a|, i requires 0 <= i < |a| => a[i][j])
  }

  function ZeroMatrix(m: nat, n: nat): (a: seq<seq<real>>)
    ensures IsMatrix(a, m, n)
    ensures forall i, j :: 0 <= i < m && 0 <= j < n ==> a[i][j] == 0.0
  {
    seq(m, _ => seq(n, _ => 0.0))
  }

  lemma SumAppend(s: seq<real>, x: real)
    ensures Sum(s + [x]) == Sum(s) + x
  {
    assert (s + [x])[..|s|] == s;
  }

  /** Overwriting one entry moves the sum by exactly the difference. */
  lemma {:induction false} SumUpdate(s: seq<real>, k: nat, x: real)
    requires k < |s|
    ensures Sum(s[k := x]) == Sum(s) - s[k] + x
  {
    var t := s[k := x];
    if k == |s| - 1 {
      assert t[..|t| - 1] == s[..|s| - 1];
    } else {
      assert t[..|t| - 1] == s[..|s| - 1][k := x];
      SumUpdate(s[..|s| - 1], k, x);
    }
  }

  lemma {:induction false} SumNonNegative(s: seq<real>)
    requires forall k :: 0 <= k < |s| ==> s[k] >= 0.0
    ensures Sum(s) >= 0.0
  {
    if |s| > 0 {
      SumNonNegative(s[..|s| - 1]);
    }
  }

  /** A non-negative sequence whose sum is zero is zero everywhere. */
  lemma {:induction false} SumZeroMeansAllZero(s: seq<real>)
    requires forall k :: 0 <= k < |s| ==> s[k] >= 0.0
    requires Sum(s) == 0.0
    ensures forall k :: 0 <= k < |s| ==> s[k] == 0.0
  {
    if |s| > 0 {
      var p := s[..|s| - 1];
      SumNonNegative(p);
      SumZeroMeansAllZero(p);
    }
  }

  lemma {:induction false} SumAllZero(s: seq<real>)
    requires forall k :: 0 <= k < |s| ==> s[k] == 0.0
    ensures Sum(s) == 0.0
  {
    if |s| > 0 {
      SumAllZero(s[..|s| - 1]);
    }
  }

  /** A set of naturals below `m` has at most `m` elements. */
  lemma {:induction false} BoundedSetSize(s: set<nat>, m: nat)
    requires forall x :: x in s ==> x < m
    ensures |s| <= m
  {
    if m > 0 {
      var s' := s - {m - 1};
      BoundedSetSize(s', m - 1);
    } else {
      assert s == {};
    }
  }

  /** A set of naturals below `m` with `m` elements holds every one of them. */
  lemma FullSetHoldsAll(s: set<nat>, m: nat)
    requires forall x :: x in s ==> x < m
    requires |s| >= m
    ensures forall x :: 0 <= x < m ==> x in s
  {
    forall x | 0 <= x < m
      ensures x in s
    {
      if x !in s {
        BoundedSetSize(s + {x}, m);
      }
    }
  }
}
