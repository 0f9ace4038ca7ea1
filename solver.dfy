/** The greedy bounded-knapsack allocation (solver.ts). */
module Solver {
  import opened Types

  const OptimalStatus: string := "Optimal Solution Found"

  function Min(a: int, b: int): int { if a <= b then a else b }

  /** A project is considered only when buying a unit creates value. */
  predicate Viable(p: CalculatedProject) { p.totalNPV > 0.0 }

  /** Every project the solver divides by has a positive unit cost. */
  predicate ViableCostsPositive(ps: seq<CalculatedProject>) {
    forall i :: 0 <= i < |ps| && Viable(ps[i]) ==> ps[i].cost > 0.0
  }

  /** Net present value per unit of money spent, the sort key. Only projects
      with a positive cost are ever compared, so the zero case is a filler. */
  function Efficiency(p: CalculatedProject): (e: real)
    ensures p.cost != 0.0 ==> e * p.cost == p.totalNPV
    ensures p.cost > 0.0 ==> (e > 0.0 <==> Viable(p))
  {
    if p.cost == 0.0 then 0.0 else p.totalNPV / p.cost
  }

  /** In the visiting order, project i comes before project j: it is more
      efficient, or as efficient and earlier in the input (the sort is stable). */
  predicate Precedes(ps: seq<CalculatedProject>, i: nat, j: nat) {
    && i < |ps| && j < |ps|
    && (Efficiency(ps[i]) > Efficiency(ps[j])
        || (Efficiency(ps[i]) == Efficiency(ps[j]) && i < j))
  }

  predicate StrictlySorted(ps: seq<CalculatedProject>, s: seq<nat>) {
    forall k, l :: 0 <= k < l < |s| ==> Precedes(ps, s[k], s[l])
  }

  /** Two different projects are always ordered, one way only. */
  lemma PrecedesTotal(ps: seq<CalculatedProject>, i: nat, j: nat)
    requires i < |ps| && j < |ps| && i != j
    ensures Precedes(ps, i, j) != Precedes(ps, j, i)
  {
  }

  lemma PrecedesTransitive(ps: seq<CalculatedProject>, i: nat, j: nat, k: nat)
    requires Precedes(ps, i, j) && Precedes(ps, j, k)
    ensures Precedes(ps, i, k)
  {
  }

  // ---------------------------------------------------------------------
  // The viability filter

  /** Indices below n of the viable projects, in input order. */
  function ViableIndices(ps: seq<CalculatedProject>, n: nat): (r: seq<nat>)
    requires n <= |ps|
    ensures forall k :: 0 <= k < |r| ==> r[k] < n
    ensures forall x: nat :: x in r <==> x < n && Viable(ps[x])
    ensures forall k, l :: 0 <= k < l < |r| ==> r[k] < r[l]
  {
    if n == 0 then []
    else ViableIndices(ps, n - 1) + (if Viable(ps[n - 1]) then [n - 1] else [])
  }

  // ---------------------------------------------------------------------
  // The efficiency order, as a functional insertion sort

  function Insert(ps: seq<CalculatedProject>, x: nat, s: seq<nat>): (r: seq<nat>)
    ensures multiset(r) == multiset(s) + multiset{x}
  {
    if s == [] then [x]
    else if Precedes(ps, x, s[0]) then [x] + s
    else
      assert s == [s[0]] + s[1..];
      [s[0]] + Insert(ps, x, s[1..])
  }

  function Sort(ps: seq<CalculatedProject>, s: seq<nat>): (r: seq<nat>)
    ensures multiset(r) == multiset(s)
  {
    if s == [] then []
    else
      assert s == [s[0]] + s[1..];
      Insert(ps, s[0], Sort(ps, s[1..]))
  }

  lemma {:induction false} InsertSorted(ps: seq<CalculatedProject>, x: nat, s: seq<nat>)
    requires StrictlySorted(ps, s) && x !in s && x < |ps|
    requires forall k :: 0 <= k < |s| ==> s[k] < |ps|
    ensures StrictlySorted(ps, Insert(ps, x, s))
  {
    if s != [] && !Precedes(ps, x, s[0]) {
      InsertSorted(ps, x, s[1..]);
      var t := Insert(ps, x, s[1..]);
      forall l | 0 <= l < |t| ensures Precedes(ps, s[0], t[l]) {
        assert t[l] in multiset(t);
        if t[l] != x {
          assert t[l] in s[1..];
        }
      }
    } else if s != [] {
      forall l | 0 <= l < |s| ensures Precedes(ps, x, s[l]) {
        if l > 0 { PrecedesTransitive(ps, x, s[0], s[l]); }
      }
    }
  }

  lemma {:induction false} SortSorted(ps: seq<CalculatedProject>, s: seq<nat>)
    requires forall k, l :: 0 <= k < l < |s| ==> s[k] != s[l]
    requires forall k :: 0 <= k < |s| ==> s[k] < |ps|
    ensures StrictlySorted(ps, Sort(ps, s))
  {
    if s != [] {
      SortSorted(ps, s[1..]);
      var t := Sort(ps, s[1..]);
      assert s[0] !in s[1..] by {
        forall k | 0 <= k < |s[1..]| ensures s[1..][k] != s[0] {
          assert s[1..][k] == s[k + 1];
        }
      }
      assert s[0] !in multiset(t);
      forall k | 0 <= k < |t| ensures t[k] < |ps| {
        assert t[k] in multiset(s[1..]);
      }
      InsertSorted(ps, s[0], t);
    }
  }

  /** Two strictly sorted sequences with the same elements are equal: the
      order a stable sort produces is determined by its input. */
  lemma {:induction false} SortedUnique(ps: seq<CalculatedProject>, a: seq<nat>, b: seq<nat>)
    requires StrictlySorted(ps, a) && StrictlySorted(ps, b)
    requires multiset(a) == multiset(b)
    ensures a == b
  {
    if a != [] {
      assert b != [] by { assert a[0] in multiset(b); }
      assert a[0] == b[0] by {
        assert a[0] in multiset(b) && b[0] in multiset(a);
      }
      assert a == [a[0]] + a[1..] && b == [b[0]] + b[1..];
      assert multiset(a) == multiset{a[0]} + multiset(a[1..]);
      assert multiset(b) == multiset{b[0]} + multiset(b[1..]);
      assert multiset(a[1..]) == multiset(a) - multiset{a[0]};
      assert multiset(b[1..]) == multiset(b) - multiset{b[0]};
      SortedUnique(ps, a[1..], b[1..]);
    }
  }

  /** The sorted viable indices list each viable project exactly once. */
  lemma SortViable(ps: seq<CalculatedProject>)
    ensures var o := Sort(ps, ViableIndices(ps, |ps|));
      && StrictlySorted(ps, o)
      && (forall x: nat :: x in o <==> x < |ps| && Viable(ps[x]))
      && (forall k :: 0 <= k < |o| ==> o[k] < |ps| && Viable(ps[o[k]]))
  {
    var v := ViableIndices(ps, |ps|);
    SortSorted(ps, v);
    var o := Sort(ps, v);
    forall x: nat ensures x in o <==> x in v {
      assert x in o <==> x in multiset(o);
      assert x in v <==> x in multiset(v);
    }
    forall k | 0 <= k < |o| ensures o[k] < |ps| && Viable(ps[o[k]]) {
      assert o[k] in v;
    }
  }

  /** The order in which the greedy pass visits the projects: each viable
      project exactly once, most efficient first, ties in input order. */
  function EfficiencyOrder(ps: seq<CalculatedProject>): (o: seq<nat>)
    ensures StrictlySorted(ps, o)
    ensures forall x: nat :: x in o <==> x < |ps| && Viable(ps[x])
    ensures forall k :: 0 <= k < |o| ==> o[k] < |ps| && Viable(ps[o[k]])
    ensures multiset(o) == multiset(ViableIndices(ps, |ps|))
  {
    SortViable(ps);
    Sort(ps, ViableIndices(ps, |ps|))
  }

  // ---------------------------------------------------------------------
  // The in-place stable sort (`viableProjects.sort(...)`)

  /** Sorted so far: positions below i are in visiting order, and every
      entry below i is an earlier project than every entry from i on, which
      themselves are still in input order. */
  ghost predicate SortedPrefix(ps: seq<CalculatedProject>, s: seq<nat>, i: nat) {
    && i <= |s|
    && (forall k :: 0 <= k < |s| ==> s[k] < |ps|)
    && (forall k, l :: 0 <= k < l < i ==> Precedes(ps, s[k], s[l]))
    && (forall k, l :: 0 <= k < i <= l < |s| ==> s[k] < s[l])
    && (forall k, l :: i <= k < l < |s| ==> s[k] < s[l])
  }

  /** Entry i, now at position j, is being moved left into the sorted prefix. */
  ghost predicate Inserting(ps: seq<CalculatedProject>, s: seq<nat>, i: nat, j: nat) {
    && j <= i < |s|
    && (forall k :: 0 <= k < |s| ==> s[k] < |ps|)
    && (forall k, l :: 0 <= k < l <= i && k != j && l != j ==> Precedes(ps, s[k], s[l]))
    && (forall l :: j < l <= i ==> Precedes(ps, s[j], s[l]))
    && (forall k :: 0 <= k <= i && k != j ==> s[k] < s[j])
    && (forall k, l :: 0 <= k <= i < l < |s| ==> s[k] < s[l])
    && (forall k, l :: i < k < l < |s| ==> s[k] < s[l])
  }

  lemma StartInserting(ps: seq<CalculatedProject>, s: seq<nat>, i: nat)
    requires SortedPrefix(ps, s, i) && i < |s|
    ensures Inserting(ps, s, i, i)
  {
  }

  /** Swapping the moving entry with a strictly less efficient left neighbour. */
  lemma SwapLeft(ps: seq<CalculatedProject>, s: seq<nat>, i: nat, j: nat)
    requires Inserting(ps, s, i, j) && 0 < j
    requires Efficiency(ps[s[j - 1]]) < Efficiency(ps[s[j]])
    ensures Inserting(ps, s[j - 1 := s[j]][j := s[j - 1]], i, j - 1)
  {
    var t := s[j - 1 := s[j]][j := s[j - 1]];
    forall k, l | 0 <= k < l <= i && k != j - 1 && l != j - 1
      ensures Precedes(ps, t[k], t[l])
    {
      if k == j {
        assert t[k] == s[j - 1];
      } else if l == j {
        assert t[l] == s[j - 1];
      }
    }
  }

  /** The moving entry stopped behind an entry at least as efficient. */
  lemma StopInserting(ps: seq<CalculatedProject>, s: seq<nat>, i: nat, j: nat)
    requires Inserting(ps, s, i, j)
    requires j == 0 || Efficiency(ps[s[j - 1]]) >= Efficiency(ps[s[j]])
    ensures SortedPrefix(ps, s, i + 1)
  {
    forall k | 0 <= k < j ensures Precedes(ps, s[k], s[j]) {
      assert Precedes(ps, s[j - 1], s[j]);
      if k < j - 1 { PrecedesTransitive(ps, s[k], s[j - 1], s[j]); }
    }
  }

  /** Moves entry i left past the strictly less efficient entries before it. */
  method InsertEntry(ps: seq<CalculatedProject>, a: array<nat>, i: nat)
    requires SortedPrefix(ps, a[..], i) && i < a.Length
    modifies a
    ensures SortedPrefix(ps, a[..], i + 1)
    ensures multiset(a[..]) == multiset(old(a[..]))
  {
    StartInserting(ps, a[..], i);
    var j: nat := i;
    while j > 0 && Efficiency(ps[a[j - 1]]) < Efficiency(ps[a[j]])
      invariant Inserting(ps, a[..], i, j)
      invariant multiset(a[..]) == multiset(old(a[..]))
    {
      ghost var s := a[..];
      SwapLeft(ps, s, i, j);
      a[j - 1], a[j] := a[j], a[j - 1];
      assert a[..] == s[j - 1 := s[j]][j := s[j - 1]];
      j := j - 1;
    }
    StopInserting(ps, a[..], i, j);
  }

  /** Sorts indices of viable projects by decreasing efficiency. Like the
      comparator of the source it compares efficiencies only; it moves an
      entry left past strictly less efficient ones, so equal entries keep
      their input order. */
  method SortByEfficiency(ps: seq<CalculatedProject>, a: array<nat>)
    requires forall k :: 0 <= k < a.Length ==> a[k] < |ps|
    requires forall k, l :: 0 <= k < l < a.Length ==> a[k] < a[l]
    modifies a
    ensures StrictlySorted(ps, a[..])
    ensures multiset(a[..]) == multiset(old(a[..]))
  {
    var i := 0;
    while i < a.Length
      invariant SortedPrefix(ps, a[..], i)
      invariant multiset(a[..]) == multiset(old(a[..]))
    {
      InsertEntry(ps, a, i);
      i := i + 1;
    }
  }

  // ---------------------------------------------------------------------
  // The greedy pass

  /** The solver's running state: the units written per id so far and the
      money spent and value gained so far. */
  datatype Greedy = Greedy(alloc: map<string, int>, cost: real, npv: real)

  /** The units recorded for an id, 0 when there is none. */
  function Lookup(alloc: map<string, int>, id: string): int {
    if id in alloc then alloc[id] else 0
  }

  function IdSet(ps: seq<CalculatedProject>): set<string> {
    set i | 0 <= i < |ps| :: ps[i].id
  }

  /** Every id starts at 0 units. */
  function ZeroAlloc(ps: seq<CalculatedProject>): (z: map<string, int>)
    ensures forall i :: 0 <= i < |ps| ==> ps[i].id in z && z[ps[i].id] == 0
    ensures forall id :: id in z ==> exists i :: 0 <= i < |ps| && ps[i].id == id
  {
    map id | id in IdSet(ps) :: 0
  }

  function Init(ps: seq<CalculatedProject>): Greedy {
    Greedy(ZeroAlloc(ps), 0.0, 0.0)
  }

  /** Units of p bought when `spent` of `budget` is already committed: as
      many as the rest of the budget pays for, at most the cap. */
  function Count(p: CalculatedProject, spent: real, budget: real): (c: int)
    requires p.cost > 0.0
    ensures c <= p.maxUnits
    ensures c == p.maxUnits || c == ((budget - spent) / p.cost).Floor
  {
    Min(((budget - spent) / p.cost).Floor, p.maxUnits)
  }

  /** Visiting project j: buy its count when the count is positive. */
  function Step(ps: seq<CalculatedProject>, budget: real, st: Greedy, j: nat): Greedy
    requires j < |ps| && ps[j].cost > 0.0
  {
    Buy(ps, st, j, Count(ps[j], st.cost, budget))
  }

  /** Commits `count` units of project j when that number is positive. */
  function Buy(ps: seq<CalculatedProject>, st: Greedy, j: nat, count: int): Greedy
    requires j < |ps|
  {
    if count > 0 then
      Greedy(st.alloc[ps[j].id := count],
             st.cost + count as real * ps[j].cost,
             st.npv + count as real * ps[j].totalNPV)
    else st
  }

  predicate Visitable(ps: seq<CalculatedProject>, order: seq<nat>) {
    forall k :: 0 <= k < |order| ==> order[k] < |ps| && ps[order[k]].cost > 0.0
  }

  /** The state after visiting the projects of `order`, one after the other. */
  function Pass(ps: seq<CalculatedProject>, budget: real, order: seq<nat>, st: Greedy): Greedy
    requires Visitable(ps, order)
  {
    if order == [] then st
    else Step(ps, budget, Pass(ps, budget, order[..|order| - 1], st), order[|order| - 1])
  }

  lemma VisitableOrder(ps: seq<CalculatedProject>)
    requires ViableCostsPositive(ps)
    ensures Visitable(ps, EfficiencyOrder(ps))
  {
    var o := EfficiencyOrder(ps);
    forall k | 0 <= k < |o| ensures o[k] < |ps| && ps[o[k]].cost > 0.0 {
      assert o[k] in o;
    }
  }

  /** One entry per input project, in input order. */
  function Report(ps: seq<CalculatedProject>, alloc: map<string, int>): seq<OptimizationResult> {
    seq(|ps|, i requires 0 <= i < |ps| => OptimizationResult(ps[i].id, Lookup(alloc, ps[i].id)))
  }

  /** What `solvePortfolio` returns. */
  function Solve(ps: seq<CalculatedProject>, budget: real): SolverResult
    requires ViableCostsPositive(ps)
  {
    VisitableOrder(ps);
    var st := Pass(ps, budget, EfficiencyOrder(ps), Init(ps));
    SolverResult(Report(ps, st.alloc), st.cost, st.npv, true, OptimalStatus)
  }

  /** `projects.forEach(p => allocations[p.id] = 0)`: every id of the input
      is recorded with 0 units, and no other key. */
  method ZeroAllocations(projects: seq<CalculatedProject>) returns (allocations: map<string, int>)
    ensures allocations == ZeroAlloc(projects)
  {
    allocations := map[];
    var i := 0;
    while i < |projects|
      invariant 0 <= i <= |projects|
      invariant allocations == ZeroAlloc(projects[..i])
    {
      assert IdSet(projects[..i + 1]) == IdSet(projects[..i]) + {projects[i].id} by {
        assert forall k :: 0 <= k < i ==> projects[..i + 1][k] == projects[..i][k];
      }
      allocations := allocations[projects[i].id := 0];
      i := i + 1;
    }
    assert projects[..i] == projects;
  }

  /** The greedy loop: each project of `viableProjects` in turn gets as many
      units as the remaining budget pays for, at most its cap, and is
      recorded under its id when that number is positive. */
  method GreedyPass(projects: seq<CalculatedProject>, budget: real, viableProjects: array<nat>,
                    zero: map<string, int>)
    returns (allocations: map<string, int>, currentCost: real, currentTotalNPV: real)
    requires Visitable(projects, viableProjects[..])
    ensures Greedy(allocations, currentCost, currentTotalNPV)
         == Pass(projects, budget, viableProjects[..], Greedy(zero, 0.0, 0.0))
  {
    ghost var order := viableProjects[..];
    allocations, currentCost, currentTotalNPV := zero, 0.0, 0.0;
    var k := 0;
    while k < viableProjects.Length
      invariant 0 <= k <= viableProjects.Length
      invariant Greedy(allocations, currentCost, currentTotalNPV)
             == Pass(projects, budget, order[..k], Greedy(zero, 0.0, 0.0))
    {
      ghost var before := Greedy(allocations, currentCost, currentTotalNPV);
      assert order[..k + 1][..k] == order[..k];
      assert Pass(projects, budget, order[..k + 1], Greedy(zero, 0.0, 0.0))
          == Step(projects, budget, before, order[k]);
      var p := projects[viableProjects[k]];
      var remainingBudget := budget - currentCost;
      var maxAffordable := (remainingBudget / p.cost).Floor;
      var count := Min(maxAffordable, p.maxUnits);
      assert Step(projects, budget, before, order[k]) == Buy(projects, before, order[k], count);
      if count > 0 {
        allocations := allocations[p.id := count];
        currentCost := currentCost + count as real * p.cost;
        currentTotalNPV := currentTotalNPV + count as real * p.totalNPV;
      }
      k := k + 1;
    }
    assert order[..k] == order;
  }

  /** The solver: filter, stable sort, id-keyed allocation record, one
      greedy pass, then one entry per input project. */
  method SolvePortfolio(projects: seq<CalculatedProject>, budget: real)
    returns (result: SolverResult)
    requires ViableCostsPositive(projects)
    ensures result == Solve(projects, budget)
    ensures result.isOptimal && result.status == "Optimal Solution Found"
  {
    var viable := ViableIndices(projects, |projects|);
    var viableProjects := new nat[|viable|](k requires 0 <= k < |viable| => viable[k]);
    assert viableProjects[..] == viable;
    SortByEfficiency(projects, viableProjects);
    SortedUnique(projects, viableProjects[..], EfficiencyOrder(projects));
    VisitableOrder(projects);

    var allocations := ZeroAllocations(projects);

    var currentCost, currentTotalNPV;
    allocations, currentCost, currentTotalNPV := GreedyPass(projects, budget, viableProjects, allocations);

    result := SolverResult(Report(projects, allocations), currentCost, currentTotalNPV,
                           true, "Optimal Solution Found");
  }
}
