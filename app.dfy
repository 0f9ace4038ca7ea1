/** The dashboard's project list: the edits the user makes to it, and the
    pipeline that values every project and hands the list to the solver. */
module App {
  import opened Types
  import Finance
  import opened Solver
  import SolverProperties

  /** Project colours, handed out in turn to added projects. */
  const COLORS: seq<string> :=
    ["#3b82f6", "#8b5cf6", "#10b981", "#f59e0b", "#ef4444", "#ec4899", "#6366f1", "#14b8a6"]

  /** The list the dashboard starts with. */
  function InitialProjects(): seq<ProjectInput> {
    [ ProjectInput("1", "Apt Type A", 4.0, 0.2, 0.05, 3, "#3b82f6"),
      ProjectInput("2", "Apt Type B", 4.2, 0.22, 0.06, 3, "#8b5cf6"),
      ProjectInput("3", "Apt Type C", 4.3, 0.21, 0.055, 3, "#10b981"),
      ProjectInput("4", "Villa S", 3.6, 0.15, 0.04, 3, "#f59e0b"),
      ProjectInput("5", "Villa M", 4.5, 0.23, 0.07, 3, "#ef4444"),
      ProjectInput("6", "Villa L", 3.8, 0.18, 0.06, 3, "#ec4899") ]
  }

  /** The scenario the dashboard starts with. */
  const InitialParams := GlobalParams(50.0, 0.08, 5)

  // ---------------------------------------------------------------------
  // Decimal ids

  predicate IsDigit(c: char) { '0' <= c <= '9' }

  predicate AllDigits(s: string) { forall i :: 0 <= i < |s| ==> IsDigit(s[i]) }

  function DigitChar(d: nat): char
    requires d < 10
  {
    (48 + d) as char
  }

  /** `n.toString()` for a natural number: its decimal digits, no leading zero. */
  function NatToString(n: nat): (s: string)
    ensures |s| > 0 && AllDigits(s)
    ensures |s| > 1 ==> s[0] != '0'
  {
    if n < 10 then [DigitChar(n)]
    else NatToString(n / 10) + [DigitChar(n % 10)]
  }

  /** The number a string of decimal digits denotes (the empty string denotes 0). */
  function ParseNat(s: string): nat
    requires AllDigits(s)
  {
    if s == [] then 0
    else 10 * ParseNat(s[..|s| - 1]) + (s[|s| - 1] as int - 48)
  }

  /** Reading back a printed number gives the number. */
  lemma {:induction false} ParseNatToString(n: nat)
    ensures ParseNat(NatToString(n)) == n
  {
    var s := NatToString(n);
    if n < 10 {
      assert s[..0] == [];
    } else {
      assert s[..|s| - 1] == NatToString(n / 10);
      ParseNatToString(n / 10);
    }
  }

  /** Different numbers print differently. */
  lemma NatToStringInjective(a: nat, b: nat)
    requires NatToString(a) == NatToString(b)
    ensures a == b
  {
    ParseNatToString(a);
    ParseNatToString(b);
  }

  // ---------------------------------------------------------------------
  // Ids in the list

  predicate DistinctIds(ps: seq<ProjectInput>) {
    forall i, j :: 0 <= i < j < |ps| ==> ps[i].id != ps[j].id
  }

  /** The ids are "1", "2", ..., in list order, as in a list built by adds only. */
  predicate CanonicalIds(ps: seq<ProjectInput>) {
    forall i :: 0 <= i < |ps| ==> ps[i].id == NatToString(i + 1)
  }

  lemma CanonicalIdsDistinct(ps: seq<ProjectInput>)
    requires CanonicalIds(ps)
    ensures DistinctIds(ps)
  {
    forall i, j | 0 <= i < j < |ps| ensures ps[i].id != ps[j].id {
      if ps[i].id == ps[j].id {
        NatToStringInjective(i + 1, j + 1);
      }
    }
  }

  lemma InitialIdsCanonical()
    ensures CanonicalIds(InitialProjects())
  {
    var ps := InitialProjects();
    assert NatToString(1) == "1" && NatToString(2) == "2" && NatToString(3) == "3";
    assert NatToString(4) == "4" && NatToString(5) == "5" && NatToString(6) == "6";
  }

  /** The start screen meets what the pipeline needs: distinct ids, positive
      costs, a discount rate above -100% and a non-negative budget. */
  lemma InitialStateValid()
    ensures DistinctIds(InitialProjects()) && PositiveCosts(InitialProjects())
    ensures Finance.DefinedDiscount(InitialParams.discountRate, InitialParams.years)
    ensures InitialParams.budget >= 0.0
  {
    InitialIdsCanonical();
    CanonicalIdsDistinct(InitialProjects());
  }

  // ---------------------------------------------------------------------
  // Adding a project

  /** The project appended at position `index` with the given id. */
  function NewProject(index: nat, id: string): ProjectInput {
    ProjectInput(id, "Project " + id, 5.0, 0.25, 0.05, 2, COLORS[index % |COLORS|])
  }

  /** `addProject` as written: the new id is the list length plus one. */
  function AddProject(ps: seq<ProjectInput>): (r: seq<ProjectInput>)
    ensures |r| == |ps| + 1 && r[..|ps|] == ps
    ensures r[|ps|].id == NatToString(|ps| + 1)
    ensures r[|ps|].name == "Project " + NatToString(|ps| + 1)
    ensures r[|ps|].cost == 5.0 && r[|ps|].rent == 0.25 && r[|ps|].growthRate == 0.05
    ensures r[|ps|].maxUnits == 2 && r[|ps|].color == COLORS[|ps| % 8]
  {
    ps + [NewProject(|ps|, NatToString(|ps| + 1))]
  }

  lemma AddKeepsCanonical(ps: seq<ProjectInput>)
    requires CanonicalIds(ps)
    ensures CanonicalIds(AddProject(ps))
  {
    var r := AddProject(ps);
    forall i | 0 <= i < |r| ensures r[i].id == NatToString(i + 1) {
      if i < |ps| {
        assert r[i] == r[..|ps|][i];
      }
    }
  }

  /** The list after n adds. */
  function AddTimes(ps: seq<ProjectInput>, n: nat): seq<ProjectInput> {
    if n == 0 then ps else AddProject(AddTimes(ps, n - 1))
  }

  /** From ids "1".."n", any number of adds keeps the ids canonical, hence distinct. */
  lemma {:induction false} AddsOnlyKeepIdsDistinct(ps: seq<ProjectInput>, n: nat)
    requires CanonicalIds(ps)
    ensures CanonicalIds(AddTimes(ps, n)) && DistinctIds(AddTimes(ps, n))
  {
    if n > 0 {
      AddsOnlyKeepIdsDistinct(ps, n - 1);
      AddKeepsCanonical(AddTimes(ps, n - 1));
    }
    CanonicalIdsDistinct(AddTimes(ps, n));
  }

  /** The number an id denotes when it is a decimal string, and 0 otherwise. */
  function IdNumber(id: string): nat {
    if AllDigits(id) then ParseNat(id) else 0
  }

  /** The largest number any id in the list denotes (0 for none). */
  function MaxIdNumber(ps: seq<ProjectInput>): (m: nat)
    ensures forall i :: 0 <= i < |ps| ==> IdNumber(ps[i].id) <= m
    ensures m == 0 || exists i :: 0 <= i < |ps| && IdNumber(ps[i].id) == m
  {
    if ps == [] then 0
    else
      var m0 := MaxIdNumber(ps[..|ps| - 1]);
      var last := IdNumber(ps[|ps| - 1].id);
      assert forall i :: 0 <= i < |ps| - 1 ==> ps[i] == ps[..|ps| - 1][i];
      if m0 < last then last else m0
  }

  /** `addProject` with the id made fresh: one more than the largest numeric id. */
  function AddProjectFresh(ps: seq<ProjectInput>): (r: seq<ProjectInput>)
    ensures |r| == |ps| + 1 && r[..|ps|] == ps
    ensures forall i :: 0 <= i < |ps| ==> ps[i].id != r[|ps|].id
    ensures r[|ps|].cost == 5.0 && r[|ps|].rent == 0.25 && r[|ps|].growthRate == 0.05
    ensures r[|ps|].maxUnits == 2 && r[|ps|].color == COLORS[|ps| % 8]
    ensures r[|ps|].name == "Project " + r[|ps|].id
    ensures DistinctIds(ps) ==> DistinctIds(r)
  {
    var m := MaxIdNumber(ps) + 1;
    var id := NatToString(m);
    ParseNatToString(m);
    assert IdNumber(id) == m;
    ps + [NewProject(|ps|, id)]
  }

  /** On a list built by adds only, the corrected add picks the same id as the original. */
  lemma {:induction false} MaxOfCanonical(ps: seq<ProjectInput>)
    requires CanonicalIds(ps)
    ensures MaxIdNumber(ps) == |ps|
  {
    if ps != [] {
      var p := ps[..|ps| - 1];
      assert CanonicalIds(p) by {
        forall i | 0 <= i < |p| ensures p[i].id == NatToString(i + 1) {
          assert p[i] == ps[i];
        }
      }
      MaxOfCanonical(p);
      ParseNatToString(|ps|);
      assert IdNumber(ps[|ps| - 1].id) == |ps|;
    }
  }

  lemma FreshAgreesWhileCanonical(ps: seq<ProjectInput>)
    requires CanonicalIds(ps)
    ensures AddProjectFresh(ps) == AddProject(ps)
  {
    MaxOfCanonical(ps);
  }

  // ---------------------------------------------------------------------
  // Updating one field

  datatype Field = IdField | NameField | CostField | RentField | GrowthRateField | MaxUnitsField | ColorField

  datatype FieldValue = Text(s: string) | Number(x: real) | Whole(n: int)

  /** An assignment of a value to one field of a project. */
  datatype FieldUpdate =
    | SetId(id: string)
    | SetName(name: string)
    | SetCost(cost: real)
    | SetRent(rent: real)
    | SetGrowthRate(growthRate: real)
    | SetMaxUnits(maxUnits: int)
    | SetColor(color: string)
  {
    function Target(): Field {
      match this
      case SetId(_) => IdField
      case SetName(_) => NameField
      case SetCost(_) => CostField
      case SetRent(_) => RentField
      case SetGrowthRate(_) => GrowthRateField
      case SetMaxUnits(_) => MaxUnitsField
      case SetColor(_) => ColorField
    }

    function Value(): FieldValue {
      match this
      case SetId(v) => Text(v)
      case SetName(v) => Text(v)
      case SetCost(v) => Number(v)
      case SetRent(v) => Number(v)
      case SetGrowthRate(v) => Number(v)
      case SetMaxUnits(v) => Whole(v)
      case SetColor(v) => Text(v)
    }
  }

  function Get(p: ProjectInput, f: Field): FieldValue {
    match f
    case IdField => Text(p.id)
    case NameField => Text(p.name)
    case CostField => Number(p.cost)
    case RentField => Number(p.rent)
    case GrowthRateField => Number(p.growthRate)
    case MaxUnitsField => Whole(p.maxUnits)
    case ColorField => Text(p.color)
  }

  /** Two projects that agree on every field are the same project. */
  lemma FieldsDetermineProject(p: ProjectInput, q: ProjectInput)
    requires forall f :: Get(p, f) == Get(q, f)
    ensures p == q
  {
    assert Get(p, IdField) == Get(q, IdField);
    assert Get(p, NameField) == Get(q, NameField);
    assert Get(p, CostField) == Get(q, CostField);
    assert Get(p, RentField) == Get(q, RentField);
    assert Get(p, GrowthRateField) == Get(q, GrowthRateField);
    assert Get(p, MaxUnitsField) == Get(q, MaxUnitsField);
    assert Get(p, ColorField) == Get(q, ColorField);
  }

  /** `{ ...p, [field]: value }`: the field takes the value, every other field is kept. */
  function SetField(p: ProjectInput, u: FieldUpdate): (q: ProjectInput)
    ensures Get(q, u.Target()) == u.Value()
    ensures forall f :: f != u.Target() ==> Get(q, f) == Get(p, f)
  {
    match u
    case SetId(v) => p.(id := v)
    case SetName(v) => p.(name := v)
    case SetCost(v) => p.(cost := v)
    case SetRent(v) => p.(rent := v)
    case SetGrowthRate(v) => p.(growthRate := v)
    case SetMaxUnits(v) => p.(maxUnits := v)
    case SetColor(v) => p.(color := v)
  }

  /** Writing a field's own value back changes nothing. */
  lemma SetFieldUnchanged(p: ProjectInput, u: FieldUpdate)
    requires Get(p, u.Target()) == u.Value()
    ensures SetField(p, u) == p
  {
    FieldsDetermineProject(SetField(p, u), p);
  }

  /** Of two writes to the same field, the later one wins. */
  lemma SetFieldOverwrites(p: ProjectInput, u: FieldUpdate, v: FieldUpdate)
    requires u.Target() == v.Target()
    ensures SetField(SetField(p, u), v) == SetField(p, v)
  {
    FieldsDetermineProject(SetField(SetField(p, u), v), SetField(p, v));
  }

  /** `updateProject`: the matching projects get the field update, the others are kept. */
  function UpdateProject(ps: seq<ProjectInput>, id: string, u: FieldUpdate): (r: seq<ProjectInput>)
    ensures |r| == |ps|
    ensures forall i :: 0 <= i < |ps| && ps[i].id != id ==> r[i] == ps[i]
    ensures forall i :: 0 <= i < |ps| && ps[i].id == id ==>
      Get(r[i], u.Target()) == u.Value()
      && forall f :: f != u.Target() ==> Get(r[i], f) == Get(ps[i], f)
  {
    seq(|ps|, i requires 0 <= i < |ps| => if ps[i].id != id then ps[i] else SetField(ps[i], u))
  }

  /** An update that does not touch the id keeps every id where it was. */
  lemma UpdateKeepsIds(ps: seq<ProjectInput>, id: string, u: FieldUpdate)
    requires !u.SetId?
    ensures forall i :: 0 <= i < |ps| ==> UpdateProject(ps, id, u)[i].id == ps[i].id
    ensures DistinctIds(ps) ==> DistinctIds(UpdateProject(ps, id, u))
  {
    var r := UpdateProject(ps, id, u);
    forall i | 0 <= i < |ps| ensures r[i].id == ps[i].id {
      assert Get(r[i], IdField) == Get(ps[i], IdField);
    }
  }

  lemma UpdateAbsentId(ps: seq<ProjectInput>, id: string, u: FieldUpdate)
    requires forall i :: 0 <= i < |ps| ==> ps[i].id != id
    ensures UpdateProject(ps, id, u) == ps
  {
  }

  // ---------------------------------------------------------------------
  // Deleting a project

  /** `deleteProject`: the projects whose id differs, in list order. */
  function DeleteProject(ps: seq<ProjectInput>, id: string): (r: seq<ProjectInput>)
    ensures |r| <= |ps|
    ensures forall p :: p in r <==> p in ps && p.id != id
  {
    if ps == [] then []
    else
      var rest := DeleteProject(ps[..|ps| - 1], id);
      assert ps == ps[..|ps| - 1] + [ps[|ps| - 1]];
      if ps[|ps| - 1].id != id then rest + [ps[|ps| - 1]] else rest
  }

  /** Deleting from a concatenation deletes from each part, so the order is kept. */
  lemma {:induction false} DeleteDistributes(a: seq<ProjectInput>, b: seq<ProjectInput>, id: string)
    ensures DeleteProject(a + b, id) == DeleteProject(a, id) + DeleteProject(b, id)
  {
    if b == [] {
      assert a + b == a;
    } else {
      var b0 := b[..|b| - 1];
      assert (a + b)[..|a + b| - 1] == a + b0;
      DeleteDistributes(a, b0, id);
    }
  }

  lemma DeleteSingle(p: ProjectInput, id: string)
    ensures DeleteProject([p], id) == if p.id == id then [] else [p]
  {
    assert [p][..0] == [];
  }

  /** Deleting an id no project has changes nothing. */
  lemma {:induction false} DeleteAbsentId(ps: seq<ProjectInput>, id: string)
    requires forall i :: 0 <= i < |ps| ==> ps[i].id != id
    ensures DeleteProject(ps, id) == ps
  {
    if ps != [] {
      DeleteAbsentId(ps[..|ps| - 1], id);
      assert ps == ps[..|ps| - 1] + [ps[|ps| - 1]];
    }
  }

  /** Deleting keeps distinct ids distinct. */
  lemma {:induction false} DeleteKeepsIdsDistinct(ps: seq<ProjectInput>, id: string)
    requires DistinctIds(ps)
    ensures DistinctIds(DeleteProject(ps, id))
  {
    if ps != [] {
      var p := ps[..|ps| - 1];
      var last := ps[|ps| - 1];
      DeleteKeepsIdsDistinct(p, id);
      var rest := DeleteProject(p, id);
      if last.id != id {
        var r := rest + [last];
        forall i | 0 <= i < |rest| ensures rest[i].id != last.id {
          assert rest[i] in rest;
          var k :| 0 <= k < |p| && p[k] == rest[i];
          assert ps[k] == p[k];
        }
        assert forall i, j :: 0 <= i < j < |r| ==> r[i].id != r[j].id by {
          forall i, j | 0 <= i < j < |r| ensures r[i].id != r[j].id {
            if j < |rest| {
              assert r[i] == rest[i] && r[j] == rest[j];
            } else {
              assert r[i] == rest[i] && r[j] == last;
            }
          }
        }
      }
    }
  }

  // ---------------------------------------------------------------------
  // The counterexample and the corrected edit stream

  /** On ids "1", "2", "3", deleting "1" and then adding gives a second "3". */
  lemma DeleteThenAddRepeatsId(ps: seq<ProjectInput>)
    requires |ps| == 3 && CanonicalIds(ps)
    ensures var r := AddProject(DeleteProject(ps, "1"));
      && |r| == 3 && r[1].id == "3" && r[2].id == "3" && !DistinctIds(r)
  {
    assert NatToString(1) == "1" && NatToString(2) == "2" && NatToString(3) == "3";
    assert ps == [ps[0]] + [ps[1], ps[2]];
    DeleteDistributes([ps[0]], [ps[1], ps[2]], "1");
    DeleteSingle(ps[0], "1");
    DeleteAbsentId([ps[1], ps[2]], "1");
    var d := DeleteProject(ps, "1");
    assert d == [ps[1], ps[2]];
    var r := AddProject(d);
    assert r[1] == r[..2][1];
  }

  /** One user action on the list. */
  datatype Edit = Add | Update(id: string, u: FieldUpdate) | Delete(id: string)

  /** An action, with the add using a fresh id. */
  function Apply(ps: seq<ProjectInput>, e: Edit): seq<ProjectInput> {
    match e
    case Add => AddProjectFresh(ps)
    case Update(id, u) => UpdateProject(ps, id, u)
    case Delete(id) => DeleteProject(ps, id)
  }

  function ApplyAll(ps: seq<ProjectInput>, es: seq<Edit>): seq<ProjectInput> {
    if es == [] then ps else Apply(ApplyAll(ps, es[..|es| - 1]), es[|es| - 1])
  }

  /** The project cards never edit an id; every other stream of actions keeps
      the ids distinct once the add picks a fresh id. */
  lemma {:induction false} EditsKeepIdsDistinct(ps: seq<ProjectInput>, es: seq<Edit>)
    requires DistinctIds(ps)
    requires forall k :: 0 <= k < |es| ==> !(es[k].Update? && es[k].u.SetId?)
    ensures DistinctIds(ApplyAll(ps, es))
  {
    if es != [] {
      var e := es[|es| - 1];
      var es0 := es[..|es| - 1];
      assert forall k :: 0 <= k < |es0| ==> es0[k] == es[k];
      EditsKeepIdsDistinct(ps, es0);
      var q := ApplyAll(ps, es0);
      match e
      case Add =>
      case Update(id, u) => UpdateKeepsIds(q, id, u);
      case Delete(id) => DeleteKeepsIdsDistinct(q, id);
    }
  }

  // ---------------------------------------------------------------------
  // The pipeline

  predicate PositiveCosts(ps: seq<ProjectInput>) {
    forall i :: 0 <= i < |ps| ==> ps[i].cost > 0.0
  }

  /** The valuation step: every project valued under the shared parameters,
      in list order. */
  function CalculatedProjects(ps: seq<ProjectInput>, params: GlobalParams): (cs: seq<CalculatedProject>)
    requires Finance.DefinedDiscount(params.discountRate, params.years)
    ensures |cs| == |ps|
    ensures forall i :: 0 <= i < |ps| ==> cs[i].Input() == ps[i]
    ensures forall i :: 0 <= i < |ps| ==> cs[i] == Finance.Metrics(ps[i], params)
  {
    seq(|ps|, i requires 0 <= i < |ps| => Finance.Metrics(ps[i], params))
  }

  lemma ValuedCostsPositive(ps: seq<ProjectInput>, params: GlobalParams)
    requires Finance.DefinedDiscount(params.discountRate, params.years) && PositiveCosts(ps)
    ensures ViableCostsPositive(CalculatedProjects(ps, params))
  {
    var cs := CalculatedProjects(ps, params);
    forall i | 0 <= i < |cs| ensures cs[i].cost > 0.0 {
      assert cs[i].Input().cost == ps[i].cost;
    }
  }

  /** What the dashboard shows: the solver run on the valued projects with the
      scenario's budget. One row per project in list order; within budget. */
  function Dashboard(ps: seq<ProjectInput>, params: GlobalParams): (r: SolverResult)
    requires Finance.DefinedDiscount(params.discountRate, params.years) && PositiveCosts(ps)
    ensures |r.allocations| == |ps|
    ensures forall i :: 0 <= i < |ps| ==> r.allocations[i].projectId == ps[i].id
    ensures r.totalCost >= 0.0 && r.totalNPV >= 0.0
    ensures params.budget >= 0.0 ==> r.totalCost <= params.budget
    ensures r.isOptimal && r.status == "Optimal Solution Found"
  {
    var cs := CalculatedProjects(ps, params);
    ValuedCostsPositive(ps, params);
    SolverProperties.SolveWithinBudget(cs, params.budget);
    assert forall i :: 0 <= i < |ps| ==> cs[i].id == cs[i].Input().id;
    Solve(cs, params.budget)
  }

  /** With distinct ids, each row stays within its project's cap, a project
      that does not create value gets nothing, and the totals are the sums
      over the rows. */
  lemma DashboardRows(ps: seq<ProjectInput>, params: GlobalParams)
    requires Finance.DefinedDiscount(params.discountRate, params.years) && PositiveCosts(ps) && DistinctIds(ps)
    ensures var r := Dashboard(ps, params);
      forall i :: 0 <= i < |ps| ==>
        && 0 <= r.allocations[i].units
        && (r.allocations[i].units > 0 ==> r.allocations[i].units <= ps[i].maxUnits)
        && (Finance.Metrics(ps[i], params).totalNPV <= 0.0 ==> r.allocations[i].units == 0)
    ensures var r := Dashboard(ps, params);
      var cs := CalculatedProjects(ps, params);
      && r.totalCost == SolverProperties.WeightedSum(SolverProperties.Units(r), SolverProperties.Costs(cs))
      && r.totalNPV == SolverProperties.WeightedSum(SolverProperties.Units(r), SolverProperties.Npvs(cs))
  {
    var cs := CalculatedProjects(ps, params);
    ValuedCostsPositive(ps, params);
    assert SolverProperties.DistinctIds(cs) by {
      forall i, j | 0 <= i < j < |cs| ensures cs[i].id != cs[j].id {
        assert cs[i].Input().id == ps[i].id && cs[j].Input().id == ps[j].id;
      }
    }
    SolverProperties.SolvePerProject(cs, params.budget);
    SolverProperties.SolveTotals(cs, params.budget);
    assert forall i :: 0 <= i < |ps| ==> cs[i].maxUnits == cs[i].Input().maxUnits;
  }

  /** A project can be bought at least once from the whole budget exactly when
      its cost fits the budget and its cap is positive. */
  lemma AffordableAlone(p: CalculatedProject, budget: real)
    requires p.cost > 0.0
    ensures Count(p, 0.0, budget) <= 0 <==> budget < p.cost || p.maxUnits <= 0
  {
    var x := (budget - 0.0) / p.cost;
    if budget < p.cost {
      assert x < 1.0;
    } else {
      assert x >= 1.0;
    }
  }

  /** The "no viable investments found" row shows exactly when no project
      that creates value is affordable: its cost exceeds the budget or
      its cap is not positive. This holds whatever the ids. */
  lemma NoViableInvestments(ps: seq<ProjectInput>, params: GlobalParams)
    requires Finance.DefinedDiscount(params.discountRate, params.years) && PositiveCosts(ps)
    ensures SolverProperties.AllZero(Dashboard(ps, params))
       <==> (forall i :: 0 <= i < |ps| && Finance.Metrics(ps[i], params).totalNPV > 0.0 ==>
               params.budget < ps[i].cost || ps[i].maxUnits <= 0)
  {
    var cs := CalculatedProjects(ps, params);
    ValuedCostsPositive(ps, params);
    SolverProperties.NoInvestmentIff(cs, params.budget);
    forall i | 0 <= i < |ps|
      ensures Count(cs[i], 0.0, params.budget) <= 0
          <==> params.budget < ps[i].cost || ps[i].maxUnits <= 0
    {
      assert cs[i].Input() == ps[i];
      AffordableAlone(cs[i], params.budget);
    }
  }
}
