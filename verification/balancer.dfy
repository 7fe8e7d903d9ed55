/** Balancing a mediator problem: when total supply and total demand
    differ, one zero-price fictional supplier or recipient absorbs the
    difference, with zero transport cost to every partner. */
module Balancer {
  import opened Entities

  datatype Balanced = Balanced(suppliers: seq<Supplier>, recipients: seq<Recipient>, costs: Costs)

  function SupplierIds(suppliers: seq<Supplier>): set<string> {
    set i | 0 <= i < |suppliers| :: suppliers[i].id
  }

  function RecipientIds(recipients: seq<Recipient>): set<string> {
    set j | 0 <= j < |recipients| :: recipients[j].id
  }

  lemma SuppliesAppend(suppliers: seq<Supplier>, s: Supplier)
    ensures TotalSupply(suppliers + [s]) == TotalSupply(suppliers) + s.supply
  {
    assert Supplies(suppliers + [s]) == Supplies(suppliers) + [s.supply];
    SumAppend(Supplies(suppliers), s.supply);
  }

  lemma DemandsAppend(recipients: seq<Recipient>, r: Recipient)
    ensures TotalDemand(recipients + [r]) == TotalDemand(recipients) + r.demand
  {
    assert Demands(recipients + [r]) == Demands(recipients) + [r.demand];
    SumAppend(Demands(recipients), r.demand);
  }

  /** `r` is `costs` with a cost-0 entry for the fictional supplier in the
      row of every recipient (the row created if missing), and nothing else
      changed: no other row appears, and every other entry is kept. */
  ghost predicate FictionalSupplierCosts(costs: Costs, recipients: seq<Recipient>, r: Costs) {
    r.Keys == costs.Keys + RecipientIds(recipients) &&
    (forall j :: 0 <= j < |recipients| ==>
      HasCost(r, recipients[j].id, FictionalSupplierId) && r[recipients[j].id][FictionalSupplierId] == 0.0) &&
    (forall rid, sid :: sid != FictionalSupplierId ==>
      (HasCost(r, rid, sid) <==> HasCost(costs, rid, sid))) &&
    (forall rid, sid :: sid != FictionalSupplierId && HasCost(costs, rid, sid) ==>
      HasCost(r, rid, sid) && r[rid][sid] == costs[rid][sid]) &&
    (forall rid :: rid !in RecipientIds(recipients) ==>
      (rid in r <==> rid in costs) && (rid in costs ==> r[rid] == costs[rid]))
  }

  /** For each recipient, creates its cost row if missing and gives the
      fictional supplier cost 0 in it; every other entry is kept. balanceProblem
      does this one recipient at a time; the order is immaterial. */
  function AddFictionalSupplierCosts(costs: Costs, recipients: seq<Recipient>): (r: Costs)
    ensures FictionalSupplierCosts(costs, recipients, r)
  {
    var ids := RecipientIds(recipients);
    map rid | rid in costs.Keys + ids ::
      if rid in ids then
        (if rid in costs then costs[rid] else map[])[FictionalSupplierId := 0.0]
      else costs[rid]
  }

  /** A cost row for the fictional recipient: cost 0 from every supplier. */
  function FictionalRecipientRow(suppliers: seq<Supplier>): (row: map<string, real>)
    ensures row.Keys == SupplierIds(suppliers)
    ensures forall sid :: sid in row ==> row[sid] == 0.0
  {
    map sid | sid in SupplierIds(suppliers) :: 0.0
  }

  /** The balancer. The caller's values are never changed: every result is
      a new value, and the entries it did not touch equal the caller's. */
  function BalanceProblem(suppliers: seq<Supplier>, recipients: seq<Recipient>, costs: Costs): (b: Balanced)
    ensures TotalSupply(b.suppliers) == TotalDemand(b.recipients)
    // originals keep their order; at most one fictional entity follows them
    ensures |suppliers| <= |b.suppliers| && b.suppliers[..|suppliers|] == suppliers
    ensures |recipients| <= |b.recipients| && b.recipients[..|recipients|] == recipients
    ensures |b.suppliers| + |b.recipients| <= |suppliers| + |recipients| + 1
    ensures TotalSupply(suppliers) < TotalDemand(recipients) ==>
      b.suppliers == suppliers +
        [Supplier(FictionalSupplierId, "SF", TotalDemand(recipients) - TotalSupply(suppliers), 0.0)]
    ensures TotalSupply(suppliers) > TotalDemand(recipients) ==>
      b.recipients == recipients +
        [Recipient(FictionalRecipientId, "RF", TotalSupply(suppliers) - TotalDemand(recipients), 0.0)]
    ensures TotalSupply(suppliers) == TotalDemand(recipients) ==> b == Balanced(suppliers, recipients, costs)
    // a fictional supplier costs 0 to every recipient; nothing else changes
    ensures TotalSupply(suppliers) < TotalDemand(recipients) ==>
      FictionalSupplierCosts(costs, recipients, b.costs)
    // a fictional recipient gets a fresh row of zero costs; other rows are kept
    ensures TotalSupply(suppliers) > TotalDemand(recipients) ==>
      FictionalRecipientId in b.costs &&
      b.costs[FictionalRecipientId].Keys == SupplierIds(suppliers) &&
      (forall sid :: sid in b.costs[FictionalRecipientId] ==> b.costs[FictionalRecipientId][sid] == 0.0) &&
      (forall rid :: rid != FictionalRecipientId ==>
         (rid in b.costs <==> rid in costs) && (rid in costs ==> b.costs[rid] == costs[rid]))
  {
    var totalSupply := TotalSupply(suppliers);
    var totalDemand := TotalDemand(recipients);
    if totalSupply < totalDemand then
      var fictional := Supplier(FictionalSupplierId, "SF", totalDemand - totalSupply, 0.0);
      SuppliesAppend(suppliers, fictional);
      assert (suppliers + [fictional])[..|suppliers|] == suppliers;
      Balanced(suppliers + [fictional], recipients, AddFictionalSupplierCosts(costs, recipients))
    else if totalSupply > totalDemand then
      var fictional := Recipient(FictionalRecipientId, "RF", totalSupply - totalDemand, 0.0);
      DemandsAppend(recipients, fictional);
      assert (recipients + [fictional])[..|recipients|] == recipients;
      Balanced(suppliers, recipients + [fictional], costs[FictionalRecipientId := FictionalRecipientRow(suppliers)])
    else
      Balanced(suppliers, recipients, costs)
  }

  /** If the caller's costs cover every pair, so do the balanced costs:
      every stage after the balancer finds each cost it looks up. */
  lemma BalancePreservesCoverage(suppliers: seq<Supplier>, recipients: seq<Recipient>, costs: Costs)
    requires CoversAll(costs, suppliers, recipients)
    ensures var b := BalanceProblem(suppliers, recipients, costs);
      CoversAll(b.costs, b.suppliers, b.recipients)
  {
    var b := BalanceProblem(suppliers, recipients, costs);
    if TotalSupply(suppliers) < TotalDemand(recipients) {
      forall i, j | 0 <= i < |b.suppliers| && 0 <= j < |b.recipients|
        ensures HasCost(b.costs, b.recipients[j].id, b.suppliers[i].id)
      {
        if i < |suppliers| && b.suppliers[i].id != FictionalSupplierId {
          assert HasCost(costs, recipients[j].id, suppliers[i].id);
        }
      }
    } else if TotalSupply(suppliers) > TotalDemand(recipients) {
      forall i, j | 0 <= i < |b.suppliers| && 0 <= j < |b.recipients|
        ensures HasCost(b.costs, b.recipients[j].id, b.suppliers[i].id)
      {
        if b.recipients[j].id == FictionalRecipientId {
          assert b.suppliers[i].id in SupplierIds(suppliers);
        } else {
          assert HasCost(costs, recipients[j].id, suppliers[i].id);
        }
      }
    }
  }

  /** Balancing a balanced problem adds nothing and changes nothing. */
  lemma BalanceIdempotent(suppliers: seq<Supplier>, recipients: seq<Recipient>, costs: Costs)
    ensures var b := BalanceProblem(suppliers, recipients, costs);
      BalanceProblem(b.suppliers, b.recipients, b.costs) == b
  {
  }
}
