/** What the greedy allocation guarantees, and what it does not. */
module SolverProperties {
  import opened Types
  import opened Solver

  /** Sum over the projects of units * weight. */
  function WeightedSum(units: seq<int>, weights: seq<real>): real
    requires |units| == |weights|
  {
    if units == [] then 0.0
    else WeightedSum(units[..|units| - 1], weights[..|weights| - 1])
         + units[|units| - 1] as real * weights[|weights| - 1]
  }

  function Costs(ps: seq<CalculatedProject>): seq<real> { seq(|ps|, i requires 0 <= i < |ps| => ps[i].cost) }
  function Npvs(ps: seq<CalculatedProject>): seq<real> { seq(|ps|, i requires 0 <= i < |ps| => ps[i].totalNPV) }

  /** The units of each entry of a solver result. */
  function Units(r: SolverResult): seq<int> {
    seq(|r.allocations|, k requires 0 <= k < |r.allocations| => r.allocations[k].units)
  }

  /** The units the allocation record gives each project. */
  function UnitsOf(ps: seq<CalculatedProject>, alloc: map<string, int>): seq<int> {
    seq(|ps|, i requires 0 <= i < |ps| => Lookup(alloc, ps[i].id))
  }

  predicate DistinctIds(ps: seq<CalculatedProject>) {
    forall i, j :: 0 <= i < j < |ps| ==> ps[i].id != ps[j].id
  }

  predicate AllZero(r: SolverResult) {
    forall k :: 0 <= k < |r.allocations| ==> r.allocations[k].units == 0
  }

  /** Units that respect the caps and the budget. */
  predicate Feasible(ps: seq<CalculatedProject>, budget: real, units: seq<int>) {
    && |units| == |ps|
    && (forall i :: 0 <= i < |ps| ==> 0 <= units[i] <= ps[i].maxUnits)
    && WeightedSum(units, Costs(ps)) <= budget
  }

  // ---------------------------------------------------------------------
  // Arithmetic of the running totals

  lemma {:induction false} WeightedSumZero(units: seq<int>, weights: seq<real>)
    requires |units| == |weights|
    requires forall i :: 0 <= i < |units| ==> units[i] == 0
    ensures WeightedSum(units, weights) == 0.0
  {
    if units != [] {
      WeightedSumZero(units[..|units| - 1], weights[..|weights| - 1]);
    }
  }

  /** Changing one entry changes the sum by the difference times its weight. */
  lemma {:induction false} WeightedSumUpdate(units: seq<int>, weights: seq<real>, j: nat, x: int)
    requires |units| == |weights| && j < |units|
    ensures WeightedSum(units[j := x], weights)
         == WeightedSum(units, weights) + (x - units[j]) as real * weights[j]
  {
    var n := |units| - 1;
    var u := units[j := x];
    if j < n {
      assert u[..n] == units[..n][j := x];
      WeightedSumUpdate(units[..n], weights[..n], j, x);
    } else {
      assert u[..n] == units[..n];
    }
  }

  /** The units bought never cost more than what is left of the budget. */
  lemma CountFits(p: CalculatedProject, spent: real, budget: real)
    requires p.cost > 0.0 && Count(p, spent, budget) > 0
    ensures spent + Count(p, spent, budget) as real * p.cost <= budget
  {
    var q := (budget - spent) / p.cost;
    var c := Count(p, spent, budget);
    assert c as real <= q;
    assert c as real * p.cost <= q * p.cost;
    assert q * p.cost == budget - spent;
  }

  /** The count is the largest one the cap and the rest of the budget allow:
      unless the cap binds, one unit more would overspend. */
  lemma CountIsLargest(p: CalculatedProject, spent: real, budget: real)
    requires p.cost > 0.0
    ensures var c := Count(p, spent, budget);
      c == p.maxUnits || budget < spent + (c + 1) as real * p.cost
  {
    var q := (budget - spent) / p.cost;
    var c := Count(p, spent, budget);
    if c != p.maxUnits {
      assert q < (c + 1) as real;
      assert q * p.cost < (c + 1) as real * p.cost;
      assert q * p.cost == budget - spent;
    }
  }

  // ---------------------------------------------------------------------
  // Invariants of the greedy pass

  predicate ViableOrder(ps: seq<CalculatedProject>, o: seq<nat>) {
    forall k :: 0 <= k < |o| ==> o[k] < |ps| && Viable(ps[o[k]])
  }

  lemma PositiveProduct(a: real, b: real)
    requires a > 0.0 && b > 0.0
    ensures a * b > 0.0
  {
  }

  predicate Bounded(st: Greedy, budget: real) {
    0.0 <= st.cost && 0.0 <= st.npv && (st.cost == 0.0 || st.cost <= budget)
  }

  /** One visit of a viable project keeps the bounds. */
  lemma StepBounds(ps: seq<CalculatedProject>, budget: real, st: Greedy, j: nat)
    requires j < |ps| && ps[j].cost > 0.0 && Viable(ps[j]) && Bounded(st, budget)
    ensures Bounded(Step(ps, budget, st, j), budget)
  {
    var c := Count(ps[j], st.cost, budget);
    if c > 0 {
      CountFits(ps[j], st.cost, budget);
      PositiveProduct(c as real, ps[j].cost);
      PositiveProduct(c as real, ps[j].totalNPV);
    }
  }

  /** Money spent and value gained are never negative, and the money spent
      stays within the budget once anything is bought. */
  lemma {:induction false} PassBounds(ps: seq<CalculatedProject>, budget: real, o: seq<nat>)
    requires Visitable(ps, o) && ViableOrder(ps, o)
    ensures var st := Pass(ps, budget, o, Init(ps));
      0.0 <= st.cost && 0.0 <= st.npv && (st.cost == 0.0 || st.cost <= budget)
  {
    if o != [] {
      var o0 := o[..|o| - 1];
      var j := o[|o| - 1];
      assert Visitable(ps, o0) && ViableOrder(ps, o0);
      PassBounds(ps, budget, o0);
      StepBounds(ps, budget, Pass(ps, budget, o0, Init(ps)), j);
    }
  }

  /** With distinct ids the record entry of project i is i's own: at least
      0, positive only for a visited project and then within its cap; and
      the running totals are the sums of units * cost and units * NPV. */
  ghost predicate Tracks(ps: seq<CalculatedProject>, o: seq<nat>, st: Greedy) {
    && (forall i :: 0 <= i < |ps| ==> 0 <= Lookup(st.alloc, ps[i].id))
    && (forall i :: 0 <= i < |ps| && Lookup(st.alloc, ps[i].id) > 0 ==>
          i in o && Lookup(st.alloc, ps[i].id) <= ps[i].maxUnits)
    && st.cost == WeightedSum(UnitsOf(ps, st.alloc), Costs(ps))
    && st.npv == WeightedSum(UnitsOf(ps, st.alloc), Npvs(ps))
  }

  lemma InitTracks(ps: seq<CalculatedProject>)
    ensures Tracks(ps, [], Init(ps))
  {
    var u := UnitsOf(ps, Init(ps).alloc);
    forall i | 0 <= i < |ps| ensures u[i] == 0 {
      assert ps[i].id in IdSet(ps);
    }
    WeightedSumZero(u, Costs(ps));
    WeightedSumZero(u, Npvs(ps));
  }

  /** Buying c units of a project that had none adds c times its cost and
      c times its value to the sums. */
  lemma SumsAfterBuy(ps: seq<CalculatedProject>, u0: seq<int>, j: nat, c: int)
    requires |u0| == |ps| && j < |ps| && u0[j] == 0
    ensures WeightedSum(u0[j := c], Costs(ps)) == WeightedSum(u0, Costs(ps)) + c as real * ps[j].cost
    ensures WeightedSum(u0[j := c], Npvs(ps)) == WeightedSum(u0, Npvs(ps)) + c as real * ps[j].totalNPV
  {
    WeightedSumUpdate(u0, Costs(ps), j, c);
    WeightedSumUpdate(u0, Npvs(ps), j, c);
  }

  /** With distinct ids, buying changes at most the bought project's units. */
  lemma BuyUnits(ps: seq<CalculatedProject>, st0: Greedy, j: nat, c: int)
    requires DistinctIds(ps) && j < |ps|
    ensures UnitsOf(ps, Buy(ps, st0, j, c).alloc)
         == if c > 0 then UnitsOf(ps, st0.alloc)[j := c] else UnitsOf(ps, st0.alloc)
  {
    if c > 0 {
      var u0 := UnitsOf(ps, st0.alloc);
      var u := UnitsOf(ps, Buy(ps, st0, j, c).alloc);
      forall i | 0 <= i < |ps| ensures u[i] == u0[j := c][i] {
        if i != j { assert ps[i].id != ps[j].id; }
      }
    }
  }

  /** Buying up to the cap of a project not visited before keeps the
      tracking invariant. */
  lemma BuyTracks(ps: seq<CalculatedProject>, o0: seq<nat>, o: seq<nat>,
                  st0: Greedy, j: nat, c: int)
    requires DistinctIds(ps) && j < |ps| && c <= ps[j].maxUnits
    requires Tracks(ps, o0, st0) && j !in o0 && j in o
    requires forall x :: x in o0 ==> x in o
    ensures Tracks(ps, o, Buy(ps, st0, j, c))
  {
    var st := Buy(ps, st0, j, c);
    var u0 := UnitsOf(ps, st0.alloc);
    var u := UnitsOf(ps, st.alloc);
    BuyUnits(ps, st0, j, c);
    if c > 0 {
      assert u0[j] == 0;
      SumsAfterBuy(ps, u0, j, c);
      forall i | 0 <= i < |ps|
        ensures 0 <= u[i]
        ensures u[i] > 0 ==> i in o && u[i] <= ps[i].maxUnits
      {
        if i != j { assert u[i] == u0[i]; }
      }
    }
  }

  lemma {:induction false} PassTracks(ps: seq<CalculatedProject>, budget: real, o: seq<nat>)
    requires Visitable(ps, o) && DistinctIds(ps)
    requires forall k, l :: 0 <= k < l < |o| ==> o[k] != o[l]
    ensures Tracks(ps, o, Pass(ps, budget, o, Init(ps)))
  {
    if o == [] {
      InitTracks(ps);
    } else {
      var o0 := o[..|o| - 1];
      var j := o[|o| - 1];
      PassTracks(ps, budget, o0);
      assert j !in o0;
      var st0 := Pass(ps, budget, o0, Init(ps));
      BuyTracks(ps, o0, o, st0, j, Count(ps[j], st0.cost, budget));
    }
  }

  lemma SortedDistinct(ps: seq<CalculatedProject>, o: seq<nat>)
    requires StrictlySorted(ps, o)
    ensures forall k, l :: 0 <= k < l < |o| ==> o[k] != o[l]
  {
    forall k, l | 0 <= k < l < |o| ensures o[k] != o[l] {
      assert Precedes(ps, o[k], o[l]);
    }
  }

  lemma OrderFacts(ps: seq<CalculatedProject>)
    requires ViableCostsPositive(ps)
    ensures Visitable(ps, EfficiencyOrder(ps)) && ViableOrder(ps, EfficiencyOrder(ps))
    ensures forall k, l :: 0 <= k < l < |EfficiencyOrder(ps)| ==> EfficiencyOrder(ps)[k] != EfficiencyOrder(ps)[l]
  {
    VisitableOrder(ps);
    SortedDistinct(ps, EfficiencyOrder(ps));
    var o := EfficiencyOrder(ps);
    forall k | 0 <= k < |o| ensures o[k] < |ps| && Viable(ps[o[k]]) {
      assert o[k] in o;
    }
  }

  // ---------------------------------------------------------------------
  // Guarantees of solvePortfolio

  /** The totals are never negative and the money spent never exceeds a
      non-negative budget (whatever the ids). */
  lemma SolveWithinBudget(ps: seq<CalculatedProject>, budget: real)
    requires ViableCostsPositive(ps)
    ensures var r := Solve(ps, budget);
      0.0 <= r.totalCost && 0.0 <= r.totalNPV && (budget >= 0.0 ==> r.totalCost <= budget)
    ensures var r := Solve(ps, budget);
      && |r.allocations| == |ps|
      && (forall i :: 0 <= i < |ps| ==> r.allocations[i].projectId == ps[i].id)
  {
    OrderFacts(ps);
    PassBounds(ps, budget, EfficiencyOrder(ps));
  }

  /** With distinct ids: one entry per input project in input order, entry i
      carrying project i's id and a unit count between 0 and its cap, and
      no unit of a project that does not create value. */
  lemma SolvePerProject(ps: seq<CalculatedProject>, budget: real)
    requires ViableCostsPositive(ps) && DistinctIds(ps)
    ensures var r := Solve(ps, budget);
      && |r.allocations| == |ps|
      && (forall i :: 0 <= i < |ps| ==> r.allocations[i].projectId == ps[i].id)
      && (forall i :: 0 <= i < |ps| ==> 0 <= r.allocations[i].units)
      && (forall i :: 0 <= i < |ps| && r.allocations[i].units > 0 ==>
            r.allocations[i].units <= ps[i].maxUnits)
      && (forall i :: 0 <= i < |ps| && !Viable(ps[i]) ==> r.allocations[i].units == 0)
  {
    OrderFacts(ps);
    PassTracks(ps, budget, EfficiencyOrder(ps));
  }

  /** With distinct ids the reported totals are the sums, over the reported
      allocations, of units * cost and units * NPV. */
  lemma SolveTotals(ps: seq<CalculatedProject>, budget: real)
    requires ViableCostsPositive(ps) && DistinctIds(ps)
    ensures var r := Solve(ps, budget);
      && |Units(r)| == |ps|
      && r.totalCost == WeightedSum(Units(r), Costs(ps))
      && r.totalNPV == WeightedSum(Units(r), Npvs(ps))
  {
    OrderFacts(ps);
    PassTracks(ps, budget, EfficiencyOrder(ps));
    var st := Pass(ps, budget, EfficiencyOrder(ps), Init(ps));
    assert Units(Solve(ps, budget)) == UnitsOf(ps, st.alloc);
  }

  // ---------------------------------------------------------------------
  // When nothing is bought

  /** A positive entry stays positive: later purchases only write positive counts. */
  lemma BuyKeepsNonzero(ps: seq<CalculatedProject>, st: Greedy, j: nat, c: int, i: nat)
    requires j < |ps| && i < |ps| && Lookup(st.alloc, ps[i].id) != 0
    ensures Lookup(Buy(ps, st, j, c).alloc, ps[i].id) != 0
  {
  }

  /** The record stays all zero exactly when no visited project is affordable
      from the full budget; and then the pass leaves the initial state alone. */
  lemma {:induction false} PassNothingBought(ps: seq<CalculatedProject>, budget: real, o: seq<nat>)
    requires Visitable(ps, o)
    ensures var st := Pass(ps, budget, o, Init(ps));
      (forall i :: 0 <= i < |ps| ==> Lookup(st.alloc, ps[i].id) == 0)
        <==> (forall k :: 0 <= k < |o| ==> Count(ps[o[k]], 0.0, budget) <= 0)
    ensures (forall k :: 0 <= k < |o| ==> Count(ps[o[k]], 0.0, budget) <= 0)
      ==> Pass(ps, budget, o, Init(ps)) == Init(ps)
  {
    var st := Pass(ps, budget, o, Init(ps));
    if o == [] {
      forall i | 0 <= i < |ps| ensures Lookup(st.alloc, ps[i].id) == 0 {
        assert ps[i].id in IdSet(ps);
      }
    } else {
      var o0 := o[..|o| - 1];
      var j := o[|o| - 1];
      PassNothingBought(ps, budget, o0);
      var st0 := Pass(ps, budget, o0, Init(ps));
      var c := Count(ps[j], st0.cost, budget);
      assert st == Buy(ps, st0, j, c);
      assert forall k :: 0 <= k < |o0| ==> o[k] == o0[k];
      if forall k :: 0 <= k < |o0| ==> Count(ps[o0[k]], 0.0, budget) <= 0 {
        assert st0 == Init(ps);
        if c > 0 {
          assert Lookup(st.alloc, ps[j].id) == c;
          assert Count(ps[o[|o| - 1]], 0.0, budget) > 0;
        } else {
          assert st == Init(ps);
        }
      } else {
        var k0 :| 0 <= k0 < |o0| && Count(ps[o0[k0]], 0.0, budget) > 0;
        assert Count(ps[o[k0]], 0.0, budget) > 0;
        var i0 :| 0 <= i0 < |ps| && Lookup(st0.alloc, ps[i0].id) != 0;
        BuyKeepsNonzero(ps, st0, j, c, i0);
      }
    }
  }

  /** "No viable investments": every entry is 0 exactly when no project that
      creates value can be afforded even alone, and then both totals are 0.
      This holds whatever the ids. */
  lemma NoInvestmentIff(ps: seq<CalculatedProject>, budget: real)
    requires ViableCostsPositive(ps)
    ensures AllZero(Solve(ps, budget))
       <==> (forall i :: 0 <= i < |ps| && Viable(ps[i]) ==> Count(ps[i], 0.0, budget) <= 0)
    ensures AllZero(Solve(ps, budget))
       ==> Solve(ps, budget).totalCost == 0.0 && Solve(ps, budget).totalNPV == 0.0
  {
    var o := EfficiencyOrder(ps);
    OrderFacts(ps);
    PassNothingBought(ps, budget, o);
    ReportAllZero(ps, Pass(ps, budget, o, Init(ps)).alloc);
    AffordableInOrder(ps, budget);
  }

  /** The report is all zero exactly when the record is zero for every project. */
  lemma ReportAllZero(ps: seq<CalculatedProject>, alloc: map<string, int>)
    ensures AllZero(SolverResult(Report(ps, alloc), 0.0, 0.0, true, OptimalStatus))
       <==> (forall i :: 0 <= i < |ps| ==> Lookup(alloc, ps[i].id) == 0)
  {
    var r := Report(ps, alloc);
    assert forall i :: 0 <= i < |ps| ==> r[i].units == Lookup(alloc, ps[i].id);
  }

  /** Some viable project is affordable alone exactly when some project of
      the visiting order is. */
  lemma AffordableInOrder(ps: seq<CalculatedProject>, budget: real)
    requires ViableCostsPositive(ps)
    ensures Visitable(ps, EfficiencyOrder(ps))
    ensures (forall i :: 0 <= i < |ps| && Viable(ps[i]) ==> Count(ps[i], 0.0, budget) <= 0)
       <==> (forall k :: 0 <= k < |EfficiencyOrder(ps)| ==>
               Count(ps[EfficiencyOrder(ps)[k]], 0.0, budget) <= 0)
  {
    var o := EfficiencyOrder(ps);
    OrderFacts(ps);
    if forall i :: 0 <= i < |ps| && Viable(ps[i]) ==> Count(ps[i], 0.0, budget) <= 0 {
      forall k | 0 <= k < |o| ensures Count(ps[o[k]], 0.0, budget) <= 0 {
        assert Viable(ps[o[k]]);
      }
    } else {
      var i :| 0 <= i < |ps| && Viable(ps[i]) && Count(ps[i], 0.0, budget) > 0;
      var k :| 0 <= k < |o| && o[k] == i;
      assert Count(ps[o[k]], 0.0, budget) > 0;
    }
  }

  /** A zero budget buys nothing. */
  lemma ZeroBudget(ps: seq<CalculatedProject>)
    requires ViableCostsPositive(ps)
    ensures AllZero(Solve(ps, 0.0))
    ensures Solve(ps, 0.0).totalCost == 0.0 && Solve(ps, 0.0).totalNPV == 0.0
  {
    forall i | 0 <= i < |ps| && Viable(ps[i]) ensures Count(ps[i], 0.0, 0.0) <= 0 {
      assert (0.0 - 0.0) / ps[i].cost == 0.0;
    }
    NoInvestmentIff(ps, 0.0);
  }

  // ---------------------------------------------------------------------
  // The visiting order decides each count

  /** Buying for another id leaves an entry alone. */
  lemma BuyOtherKeeps(ps: seq<CalculatedProject>, st: Greedy, j: nat, c: int, id: string)
    requires j < |ps| && ps[j].id != id
    ensures Lookup(Buy(ps, st, j, c).alloc, id) == Lookup(st.alloc, id)
  {
  }

  /** One more visit on a prefix of the order. */
  lemma PassPrefixStep(ps: seq<CalculatedProject>, budget: real, o: seq<nat>, m: nat)
    requires Visitable(ps, o) && 0 < m <= |o|
    ensures Visitable(ps, o[..m - 1]) && Visitable(ps, o[..m])
    ensures Pass(ps, budget, o[..m], Init(ps))
         == Step(ps, budget, Pass(ps, budget, o[..m - 1], Init(ps)), o[m - 1])
  {
    assert o[..m][..m - 1] == o[..m - 1];
  }

  /** Visits after the k-th leave the k-th project's entry alone. */
  lemma {:induction false} LaterVisitsKeep(ps: seq<CalculatedProject>, budget: real, o: seq<nat>,
                                           k: nat, m: nat)
    requires Visitable(ps, o) && k < m <= |o|
    requires forall l :: k < l < |o| ==> ps[o[l]].id != ps[o[k]].id
    ensures Visitable(ps, o[..m]) && Visitable(ps, o[..k + 1])
    ensures Lookup(Pass(ps, budget, o[..m], Init(ps)).alloc, ps[o[k]].id)
         == Lookup(Pass(ps, budget, o[..k + 1], Init(ps)).alloc, ps[o[k]].id)
  {
    PassPrefixStep(ps, budget, o, m);
    if m > k + 1 {
      LaterVisitsKeep(ps, budget, o, k, m - 1);
      var st0 := Pass(ps, budget, o[..m - 1], Init(ps));
      var j := o[m - 1];
      BuyOtherKeeps(ps, st0, j, Count(ps[j], st0.cost, budget), ps[o[k]].id);
    }
  }

  /** With distinct ids, a project the pass has not visited has no units. */
  lemma UnvisitedIsZero(ps: seq<CalculatedProject>, budget: real, o: seq<nat>, i: nat)
    requires Visitable(ps, o) && DistinctIds(ps)
    requires forall a, b :: 0 <= a < b < |o| ==> o[a] != o[b]
    requires i < |ps| && i !in o
    ensures Lookup(Pass(ps, budget, o, Init(ps)).alloc, ps[i].id) == 0
  {
    PassTracks(ps, budget, o);
  }

  /** The k-th visit writes its count, or leaves the entry at 0. */
  lemma VisitEntry(ps: seq<CalculatedProject>, budget: real, o: seq<nat>, k: nat)
    requires Visitable(ps, o) && DistinctIds(ps)
    requires forall a, b :: 0 <= a < b < |o| ==> o[a] != o[b]
    requires k < |o|
    ensures Visitable(ps, o[..k]) && Visitable(ps, o[..k + 1])
    ensures var c := Count(ps[o[k]], Pass(ps, budget, o[..k], Init(ps)).cost, budget);
      Lookup(Pass(ps, budget, o[..k + 1], Init(ps)).alloc, ps[o[k]].id) == if c > 0 then c else 0
  {
    PassPrefixStep(ps, budget, o, k + 1);
    var o0 := o[..k];
    assert forall a, b :: 0 <= a < b < |o0| ==> o0[a] != o0[b];
    assert o[k] !in o0;
    UnvisitedIsZero(ps, budget, o0, o[k]);
  }

  /** With distinct ids, the k-th project in the visiting order gets exactly
      min(floor((budget - spent) / cost), maxUnits) units when that is
      positive and 0 otherwise, `spent` being what the earlier visits bought. */
  lemma SolveVisitsInOrder(ps: seq<CalculatedProject>, budget: real, k: nat)
    requires ViableCostsPositive(ps) && DistinctIds(ps) && k < |EfficiencyOrder(ps)|
    ensures var o := EfficiencyOrder(ps);
      var spent := Pass(ps, budget, o[..k], Init(ps)).cost;
      var c := Count(ps[o[k]], spent, budget);
      Solve(ps, budget).allocations[o[k]].units == if c > 0 then c else 0
  {
    var o := EfficiencyOrder(ps);
    OrderFacts(ps);
    VisitEntry(ps, budget, o, k);
    forall l | k < l < |o| ensures ps[o[l]].id != ps[o[k]].id {
      assert o[l] != o[k];
    }
    LaterVisitsKeep(ps, budget, o, k, |o|);
    assert o[..|o|] == o;
  }

  // ---------------------------------------------------------------------
  // Worked examples

  function Unit(id: string, cost: real, totalNPV: real, maxUnits: int): CalculatedProject {
    CalculatedProject(id, "", cost, 0.0, 0.0, maxUnits, "", 0.0, 0.0, totalNPV)
  }

  lemma ViableOfTwo(ps: seq<CalculatedProject>)
    requires |ps| == 2 && Viable(ps[0]) && Viable(ps[1])
    ensures ViableIndices(ps, |ps|) == [0, 1]
  {
    assert ViableIndices(ps, 1) == ViableIndices(ps, 0) + [0];
  }

  /** The order of two projects by efficiency, the first one on a tie. */
  function TwoOrder(ps: seq<CalculatedProject>): seq<nat> {
    if Precedes(ps, 1, 0) then [1, 0] else [0, 1]
  }

  lemma TwoOrderSorted(ps: seq<CalculatedProject>)
    requires |ps| == 2
    ensures StrictlySorted(ps, TwoOrder(ps))
    ensures multiset(TwoOrder(ps)) == multiset([0, 1])
  {
  }

  /** Two viable projects are visited in efficiency order, the first one on a tie. */
  lemma OrderOfTwo(ps: seq<CalculatedProject>)
    requires |ps| == 2 && Viable(ps[0]) && Viable(ps[1])
    ensures EfficiencyOrder(ps) == TwoOrder(ps)
  {
    TwoOrderSorted(ps);
    ViableOfTwo(ps);
    SortedUnique(ps, TwoOrder(ps), EfficiencyOrder(ps));
  }

  /** A pass over two visits, written out. */
  lemma PassOfTwo(ps: seq<CalculatedProject>, budget: real, x: nat, y: nat)
    requires x < |ps| && y < |ps| && ps[x].cost > 0.0 && ps[y].cost > 0.0
    ensures Visitable(ps, [x, y])
    ensures Pass(ps, budget, [x, y], Init(ps))
         == Step(ps, budget, Step(ps, budget, Init(ps), x), y)
  {
    assert [x, y][..1] == [x];
    assert [x][..0] == [];
    assert Pass(ps, budget, [x], Init(ps)) == Step(ps, budget, Init(ps), x);
  }

  /** Two projects visited in the order x, y, ending in state st. */
  predicate TwoVisits(ps: seq<CalculatedProject>, budget: real, x: nat, y: nat, st: Greedy) {
    && |ps| == 2 && x < 2 && y < 2 && ps[x].cost > 0.0 && ps[y].cost > 0.0
    && ViableCostsPositive(ps) && EfficiencyOrder(ps) == [x, y]
    && Step(ps, budget, Step(ps, budget, Init(ps), x), y) == st
  }

  /** Solve on two viable projects, unfolded: the report of two visits. */
  lemma SolveOfTwo(ps: seq<CalculatedProject>, budget: real, x: nat, y: nat, st: Greedy)
    requires TwoVisits(ps, budget, x, y, st)
    ensures ViableCostsPositive(ps)
    ensures Solve(ps, budget).allocations == Report(ps, st.alloc)
    ensures Solve(ps, budget).totalCost == st.cost && Solve(ps, budget).totalNPV == st.npv
    ensures Solve(ps, budget).isOptimal
  {
    PassOfTwo(ps, budget, x, y);
  }

  lemma WeightedSumOfTwo(units: seq<int>, weights: seq<real>)
    requires |units| == |weights| == 2
    ensures WeightedSum(units, weights)
         == units[0] as real * weights[0] + units[1] as real * weights[1]
  {
    assert units[..1][..0] == [] && weights[..1][..0] == [];
    assert WeightedSum(units[..1], weights[..1]) == units[0] as real * weights[0];
  }

  /** Efficiencies 0.25 and 0.45 with a budget of 10. */
  predicate IsCapExample(ps: seq<CalculatedProject>) {
    |ps| == 2 && ps[0] == Unit("1", 4.0, 1.0, 3) && ps[1] == Unit("2", 2.0, 0.9, 5)
  }

  lemma CapExampleOrder(ps: seq<CalculatedProject>)
    requires IsCapExample(ps)
    ensures ViableCostsPositive(ps) && EfficiencyOrder(ps) == [1, 0]
  {
    assert Efficiency(ps[0]) == 0.25 && Efficiency(ps[1]) == 0.45;
    OrderOfTwo(ps);
  }

  lemma CapExampleVisits(ps: seq<CalculatedProject>)
    requires IsCapExample(ps)
    ensures TwoVisits(ps, 10.0, 1, 0, Greedy(ZeroAlloc(ps)["2" := 5], 10.0, 4.5))
  {
    CapExampleOrder(ps);
    CapExamplePass(ps);
  }

  lemma CapExamplePass(ps: seq<CalculatedProject>)
    requires IsCapExample(ps)
    ensures Step(ps, 10.0, Step(ps, 10.0, Init(ps), 1), 0) == Greedy(ZeroAlloc(ps)["2" := 5], 10.0, 4.5)
  {
    assert Count(ps[1], 0.0, 10.0) == 5 by {
      assert (10.0 - 0.0) / 2.0 == 5.0;
    }
    assert Count(ps[0], 10.0, 10.0) == 0 by {
      assert (10.0 - 10.0) / 4.0 == 0.0;
    }
  }

  lemma CapExampleReport(ps: seq<CalculatedProject>)
    requires IsCapExample(ps)
    ensures Report(ps, ZeroAlloc(ps)["2" := 5])
         == [OptimizationResult("1", 0), OptimizationResult("2", 5)]
  {
    var alloc := ZeroAlloc(ps)["2" := 5];
    assert ps[0].id == "1" && ps[0].id in IdSet(ps) && "1" != "2";
    assert Lookup(alloc, "1") == 0 && Lookup(alloc, "2") == 5;
  }

  /** The second project is visited first, its cap of 5 uses the whole
      budget, and the first project gets nothing. */
  lemma CapBeforeBudgetExample(ps: seq<CalculatedProject>)
    requires IsCapExample(ps)
    ensures var r := Solve(ps, 10.0);
      && r.allocations == [OptimizationResult("1", 0), OptimizationResult("2", 5)]
      && r.totalCost == 10.0 && r.totalNPV == 4.5
  {
    CapExampleVisits(ps);
    CapExampleReport(ps);
    SolveOfTwo(ps, 10.0, 1, 0, Greedy(ZeroAlloc(ps)["2" := 5], 10.0, 4.5));
  }

  /** Efficiencies 0.5 and 0.45 with a budget of 4. */
  predicate IsGapExample(ps: seq<CalculatedProject>) {
    |ps| == 2 && ps[0] == Unit("1", 3.0, 1.5, 1) && ps[1] == Unit("2", 2.0, 0.9, 2)
  }

  lemma GapExampleOrder(ps: seq<CalculatedProject>)
    requires IsGapExample(ps)
    ensures ViableCostsPositive(ps) && EfficiencyOrder(ps) == [0, 1]
  {
    assert Efficiency(ps[0]) == 0.5 && Efficiency(ps[1]) == 0.45;
    OrderOfTwo(ps);
  }

  lemma GapExampleVisits(ps: seq<CalculatedProject>)
    requires IsGapExample(ps)
    ensures TwoVisits(ps, 4.0, 0, 1, Greedy(ZeroAlloc(ps)["1" := 1], 3.0, 1.5))
  {
    GapExampleOrder(ps);
    GapExamplePass(ps);
  }

  lemma GapExamplePass(ps: seq<CalculatedProject>)
    requires IsGapExample(ps)
    ensures Step(ps, 4.0, Step(ps, 4.0, Init(ps), 0), 1) == Greedy(ZeroAlloc(ps)["1" := 1], 3.0, 1.5)
  {
    assert Count(ps[0], 0.0, 4.0) == 1 by {
      assert 1.0 <= (4.0 - 0.0) / 3.0 < 2.0;
    }
    assert Count(ps[1], 3.0, 4.0) == 0 by {
      assert (4.0 - 3.0) / 2.0 == 0.5;
    }
  }

  lemma GapExampleAlternative(ps: seq<CalculatedProject>)
    requires IsGapExample(ps)
    ensures Feasible(ps, 4.0, [0, 2])
    ensures WeightedSum([0, 2], Npvs(ps)) == 1.8
  {
    WeightedSumOfTwo([0, 2], Costs(ps));
    WeightedSumOfTwo([0, 2], Npvs(ps));
  }

  /** The greedy pass is not optimal, although it reports that it is: it buys
      the most efficient project and strands the rest of the budget, while
      two units of the other project fit the budget exactly and are worth more. */
  lemma GreedyIsNotOptimal(ps: seq<CalculatedProject>)
    requires IsGapExample(ps)
    ensures var r := Solve(ps, 4.0);
      && r.totalNPV == 1.5 && r.isOptimal
      && Feasible(ps, 4.0, [0, 2])
      && WeightedSum([0, 2], Npvs(ps)) > r.totalNPV
  {
    GapExampleVisits(ps);
    GapExampleAlternative(ps);
    SolveOfTwo(ps, 4.0, 0, 1, Greedy(ZeroAlloc(ps)["1" := 1], 3.0, 1.5));
  }

  /** Two projects sharing the id "3": efficiencies 1 and 0.5, budget 10. */
  predicate IsSharedIdExample(ps: seq<CalculatedProject>) {
    |ps| == 2 && ps[0] == Unit("3", 1.0, 1.0, 1) && ps[1] == Unit("3", 1.0, 0.5, 2)
  }

  lemma SharedIdOrder(ps: seq<CalculatedProject>)
    requires IsSharedIdExample(ps)
    ensures ViableCostsPositive(ps) && EfficiencyOrder(ps) == [0, 1]
  {
    assert Efficiency(ps[0]) == 1.0 && Efficiency(ps[1]) == 0.5;
    OrderOfTwo(ps);
  }

  lemma SharedIdVisits(ps: seq<CalculatedProject>)
    requires IsSharedIdExample(ps)
    ensures TwoVisits(ps, 10.0, 0, 1, Greedy(ZeroAlloc(ps)["3" := 2], 3.0, 2.0))
  {
    SharedIdOrder(ps);
    SharedIdPass(ps);
  }

  lemma SharedIdPass(ps: seq<CalculatedProject>)
    requires IsSharedIdExample(ps)
    ensures Step(ps, 10.0, Step(ps, 10.0, Init(ps), 0), 1) == Greedy(ZeroAlloc(ps)["3" := 2], 3.0, 2.0)
  {
    assert Count(ps[0], 0.0, 10.0) == 1 by {
      assert (10.0 - 0.0) / 1.0 == 10.0;
    }
    assert Count(ps[1], 1.0, 10.0) == 2 by {
      assert (10.0 - 1.0) / 1.0 == 9.0;
    }
    assert ZeroAlloc(ps)["3" := 1]["3" := 2] == ZeroAlloc(ps)["3" := 2];
  }

  lemma SharedIdReport(ps: seq<CalculatedProject>)
    requires IsSharedIdExample(ps)
    ensures var r := Report(ps, ZeroAlloc(ps)["3" := 2]);
      && r == [OptimizationResult("3", 2), OptimizationResult("3", 2)]
      && WeightedSum([2, 2], Costs(ps)) == 4.0
  {
    WeightedSumOfTwo([2, 2], Costs(ps));
  }

  /** Two projects sharing an id share one record entry: both rows report the
      units written last, which exceed the first project's cap, and the
      reported cost differs from the sum of units * cost over the rows. */
  lemma SharedIdMisreports(ps: seq<CalculatedProject>)
    requires IsSharedIdExample(ps)
    ensures var r := Solve(ps, 10.0);
      && r.allocations == [OptimizationResult("3", 2), OptimizationResult("3", 2)]
      && r.allocations[0].units > ps[0].maxUnits
      && r.totalCost == 3.0
      && WeightedSum(Units(r), Costs(ps)) == 4.0
  {
    SharedIdVisits(ps);
    SharedIdReport(ps);
    SolveOfTwo(ps, 10.0, 0, 1, Greedy(ZeroAlloc(ps)["3" := 2], 3.0, 2.0));
    assert Units(Solve(ps, 10.0)) == [2, 2];
  }
}
