# Real-estate portfolio optimiser, modelled in Dafny

The dashboard keeps a list of project types. Each one is an asset with a unit
cost, a yearly rent, a price growth rate and a cap on the number of units. The
valuation engine turns each project into a discounted-cash-flow record: the
present value of the rent up to the horizon, the future sale price and its
present value, and the net present value (NPV) of buying one unit. The
allocation solver takes the valued projects and the budget and makes one
greedy pass. It drops the projects that destroy value and visits the rest from
the highest NPV/cost ratio down. Each visited project gets as many units as
the remaining budget and its cap allow. The solver reports the units of every
project, in list order, plus the cost and NPV totals.

Modules:

- `Types` (types.dfy): the records exchanged between the three stages.
- `Finance` (finance.dfy): the valuation. `CalculateProjectMetrics` keeps the
  source's year-by-year loop and is proved equal to the recursive definition
  `Metrics`.
- `Solver` (solver.dfy): the allocation solver, imperative like the source.
  The viable projects are an `array<nat>` of indices into the input. An
  in-place stable insertion sort orders them by efficiency. The allocation
  record is a `map<string, int>` written per id, and a loop accumulates the
  totals. Each method is proved against a functional counterpart:
  `ZeroAllocations` equals `ZeroAlloc`, `GreedyPass` equals the greedy fold
  `Pass`, `SortByEfficiency` ends sorted and a permutation of its input, which
  `SortedUnique` pins to the visiting order `EfficiencyOrder`, and
  `InsertEntry` extends the sorted prefix by one. `SolvePortfolio` composes
  them and is proved equal to `Solve`.
- `SolverProperties` (solver_properties.dfy): what `Solve` guarantees, with
  three worked examples.
- `App` (app.dfy): the list edits (add, update one field, delete), the
  valuation map, the solver call and the empty-state test of the dashboard.

Numbers are `real`, so there is no rounding. The horizon is a `nat`, and the
unit cap is an `int` that may be negative. The cap property is therefore stated
as "positive units are within the cap": a project with a negative cap gets 0
units, which is above its cap, so "0 <= units <= maxUnits" holds only for caps
>= 0.

## Model

| member | source | states |
|---|---|---|
| Finance.DefinedDiscount | finance.ts:22 | the discounting is finite: the horizon is 0, or 1 + discountRate is not 0 |
| Finance.Pow | finance.ts:22 | `Math.pow` for a natural exponent: non-zero for a non-zero base, positive for a positive base |
| Finance.RentalPV | finance.ts:20-23 | the sum over k = 1..years of rent/(1+r)^k; not negative when rent >= 0 and r > -1 |
| Finance.Metrics | finance.ts:26-40 | the valuation of a project: every input field is carried over unchanged |
| Finance.CalculateProjectMetrics | finance.ts:12-41 | the loop over the years computes exactly the recursive rental sum, and the whole record equals `Metrics` |
| Finance.MetricsDecompose | finance.ts:27-39 | salePrice = cost(1+g)^years, rentalNPV = RentalPV, totalNPV = -cost + rentalNPV + salePrice/(1+r)^years |
| Finance.ZeroHorizon | finance.ts:20-33 | with years = 0: salePrice = cost, rentalNPV = 0, totalNPV = 0 |
| Finance.RentalPVOfNoRent | finance.ts:20-23 | no rent gives a rental present value of 0 for every horizon |
| Finance.BreakEvenWhenRentFreeAndGrowthIsDiscount | finance.ts:27-33 | with rent = 0 and growth = discount rate, totalNPV = 0 for every horizon |
| Finance.PowOfOne | finance.ts:22 | 1^n = 1 |
| Finance.RentalPVUndiscounted | finance.ts:20-23 | with discount rate 0 the rental present value is rent * years |
| Finance.RentalPVMonotone | finance.ts:20-23 | with rent >= 0 and r > -1 the rental present value is not negative and does not decrease with the horizon |
| Finance.RentalPVClosedForm | finance.ts:20-23 | for r different from 0 and -1: the annuity formula rent/r * (1 - 1/(1+r)^years) |
| Finance.AnnuityStep | finance.ts:22 | one more year of the annuity formula adds exactly that year's discounted rent |
| Solver.Viable | solver.ts:22 | the filter's test: a project is kept iff its totalNPV > 0 |
| Solver.Efficiency | solver.ts:25 | the sort key totalNPV / cost: efficiency * cost = totalNPV, and for a positive cost it is positive iff the project is viable |
| Solver.Precedes | solver.ts:25 | the comparator under a stable sort: i goes before j iff i is more efficient, or as efficient and earlier in the input |
| Solver.PrecedesTotal | solver.ts:25 | of two different projects exactly one goes first |
| Solver.PrecedesTransitive | solver.ts:25 | the visiting order (higher efficiency first, ties in input order) is transitive |
| Solver.ViableIndices | solver.ts:22 | the filter keeps exactly the projects with positive NPV, in input order |
| Solver.Insert | solver.ts:25 | inserting into the order adds exactly one element |
| Solver.Sort | solver.ts:25 | the functional sort is a permutation of its input |
| Solver.InsertSorted | solver.ts:25 | inserting into a sorted order yields a sorted order |
| Solver.SortSorted | solver.ts:25 | the functional sort yields a sorted order |
| Solver.SortedUnique | solver.ts:25 | two sorted orders with the same elements are equal, so a stable sort's result is fixed by its input |
| Solver.SortViable | solver.ts:22-25 | the sorted viable list is sorted and holds exactly the viable projects |
| Solver.EfficiencyOrder | solver.ts:22-25 | the visiting order: sorted (efficiency descending, ties in input order), each viable project just once, nothing else |
| Solver.StartInserting | solver.ts:25 | invariant set-up for inserting the next entry of the in-place sort |
| Solver.SwapLeft | solver.ts:25 | swapping the entry with a less efficient left neighbour keeps the insertion invariant |
| Solver.StopInserting | solver.ts:25 | when the left neighbour is not less efficient, the prefix is one entry longer and still sorted |
| Solver.InsertEntry | solver.ts:25 | one insertion step of the in-place sort: one more sorted entry, same multiset |
| Solver.SortByEfficiency | solver.ts:25 | `viableProjects.sort(...)` in place: the array ends sorted in the visiting order and is a permutation of its input |
| Solver.VisitableOrder | solver.ts:34-36 | every project in the visiting order has a positive cost, so the division is defined |
| Solver.ZeroAlloc | solver.ts:27-28 | the starting record: every input id maps to 0, and no other id is a key |
| Solver.Init | solver.ts:27-31 | the state before the loop: the zero record, cost 0 and NPV 0 |
| Solver.Count | solver.ts:35-37 | min(floor((budget - spent)/cost), maxUnits): never above the cap, and equal to the cap or to the floor |
| Solver.Buy | solver.ts:39-43 | for count > 0: the id's entry becomes count, the cost grows by count * cost and the NPV by count * totalNPV; otherwise nothing changes |
| Solver.Step | solver.ts:35-43 | one turn of the loop: `Buy` with the `Count` at the money spent so far |
| Solver.Pass | solver.ts:34-44 | the loop as a fold: `Step` applied to each project of the order, first to last |
| Solver.Lookup | solver.ts:55 | the record's entry for an id, or 0 for an id without one, as the source's fallback to 0 |
| Solver.Report | solver.ts:53-56 | one row per input project, in input order, with its id and its units from the record |
| Solver.Solve | solver.ts:17-65 | the result: `Pass` over `EfficiencyOrder` from `Init`, then `Report`, the pass totals, isOptimal = true and the fixed status |
| Solver.ZeroAllocations | solver.ts:27-28 | the record maps every id of the input to 0 |
| Solver.GreedyPass | solver.ts:30-44 | the loop's record and totals equal the greedy fold `Pass` over the sorted array |
| Solver.SolvePortfolio | solver.ts:17-65 | the method returns `Solve`, and always reports isOptimal = true with status "Optimal Solution Found" |
| SolverProperties.WeightedSumZero | solver.ts:30-31 | the sums start at 0 over an all-zero record |
| SolverProperties.InitTracks | solver.ts:27-31 | the record of zeros and zero totals satisfy the pass invariant |
| SolverProperties.WeightedSumUpdate | solver.ts:41-42 | changing one project's units changes a sum of units * weight by the difference times that weight |
| SolverProperties.CountFits | solver.ts:35-41 | a positive count bought at the remaining budget keeps the spending within the budget |
| SolverProperties.CountIsLargest | solver.ts:35-37 | unless the cap binds, one more unit would overspend the remaining budget |
| SolverProperties.StepBounds | solver.ts:35-43 | one visit of a viable project keeps cost and NPV >= 0 and the cost within the budget once anything is bought |
| SolverProperties.PassBounds | solver.ts:30-44 | during the pass cost and NPV stay >= 0, and the cost is 0 or within the budget |
| SolverProperties.SumsAfterBuy | solver.ts:40-42 | one purchase adds count * cost and count * NPV to the sums over the record |
| SolverProperties.BuyUnits | solver.ts:40 | with distinct ids a purchase rewrites only the visited project's units |
| SolverProperties.BuyTracks | solver.ts:39-43 | a purchase keeps the invariant: units >= 0, only visited projects hold units, within their caps, totals equal the sums |
| SolverProperties.PassTracks | solver.ts:30-44 | the invariant holds after every pass with distinct ids |
| SolverProperties.SortedDistinct | solver.ts:25 | a sorted order has no repeated project |
| SolverProperties.OrderFacts | solver.ts:22-25 | the visiting order has positive costs, only viable projects and no repeats |
| SolverProperties.SolveWithinBudget | solver.ts:35-61 | whatever the ids: one entry per project in input order carrying its id, totalCost >= 0 and totalNPV >= 0, and with budget >= 0, totalCost <= budget |
| SolverProperties.SolvePerProject | solver.ts:22-56 | with distinct ids: one entry per project in input order with its id, units >= 0, positive units within the cap, value-destroying projects get 0 |
| SolverProperties.SolveTotals | solver.ts:41-61 | with distinct ids: totalCost = sum of units * cost and totalNPV = sum of units * NPV over the entries |
| SolverProperties.BuyKeepsNonzero | solver.ts:39-40 | a purchase never resets an entry to 0 |
| SolverProperties.PassNothingBought | solver.ts:34-43 | the record stays all zero iff no visited project is affordable from the full budget; then the pass changes nothing |
| SolverProperties.AllZero | App.tsx:281 | every allocation has 0 units: the dashboard's empty-state test |
| SolverProperties.NoInvestmentIff | solver.ts:34-56 | every entry is 0 iff no viable project has a positive count from the full budget; then both totals are 0 |
| SolverProperties.AffordableInOrder | solver.ts:22-25 | some viable project is affordable alone iff some project of the visiting order is |
| SolverProperties.ReportAllZero | solver.ts:53-56 | the report is all zero iff the record gives every project 0 |
| SolverProperties.ZeroBudget | solver.ts:35-39 | a zero budget buys nothing: every entry and both totals are 0 |
| SolverProperties.BuyOtherKeeps | solver.ts:40 | buying for another id leaves an entry alone |
| SolverProperties.PassPrefixStep | solver.ts:34 | a prefix of the visiting order one longer is one more visit |
| SolverProperties.LaterVisitsKeep | solver.ts:34-43 | with distinct ids, later visits do not change an earlier project's units |
| SolverProperties.UnvisitedIsZero | solver.ts:28-43 | with distinct ids, a project not yet visited still has 0 units |
| SolverProperties.VisitEntry | solver.ts:35-40 | the k-th visit writes min(floor((budget - spent)/cost), maxUnits) if positive, else leaves 0 |
| SolverProperties.SolveVisitsInOrder | solver.ts:25-43 | with distinct ids, the k-th project in the visiting order ends with min(floor((budget - spent so far)/cost), maxUnits) units if that is positive, else 0 |
| SolverProperties.ViableOfTwo | solver.ts:22 | with both projects viable the filter keeps both, in order |
| SolverProperties.OrderOfTwo | solver.ts:25 | two viable projects are visited by efficiency, the first one on a tie |
| SolverProperties.PassOfTwo | solver.ts:34-44 | a pass of two visits is the two steps one after the other |
| SolverProperties.SolveOfTwo | solver.ts:17-65 | the result for two visits: the record's report and the pass totals, flagged optimal |
| SolverProperties.WeightedSumOfTwo | solver.ts:41-42 | the weighted sum of two entries |
| SolverProperties.CapExampleOrder | solver.ts:25 | efficiencies 0.25 and 0.45: visited as [1, 0] |
| SolverProperties.CapExampleVisits | solver.ts:25-43 | costs 4 and 2, NPVs 1 and 0.9, caps 3 and 5, budget 10: the second goes first and takes 5 units |
| SolverProperties.CapExamplePass | solver.ts:34-43 | in that example the second visit buys nothing |
| SolverProperties.CapExampleReport | solver.ts:53-56 | in that example the report is [("1", 0), ("2", 5)] |
| SolverProperties.CapBeforeBudgetExample | solver.ts:17-65 | in that example: allocations [0, 5], totalCost 10, totalNPV 4.5 |
| SolverProperties.GapExampleOrder | solver.ts:25 | efficiencies 0.5 and 0.45: visited as [0, 1] |
| SolverProperties.GapExampleVisits | solver.ts:25-43 | costs 3 and 2, NPVs 1.5 and 0.9, caps 1 and 2, budget 4: the first project goes first |
| SolverProperties.GapExamplePass | solver.ts:34-43 | in that example the pass buys one unit of the first project and nothing else |
| SolverProperties.GapExampleAlternative | solver.ts:5-8 | in that example, 2 units of the second project fit the budget and caps and are worth 1.8 |
| SolverProperties.GreedyIsNotOptimal | solver.ts:5-62 | in that example the greedy NPV is 1.5 although the result says it is optimal, while a feasible allocation is worth 1.8 |
| SolverProperties.SharedIdOrder | solver.ts:25 | efficiencies 1 and 0.5: visited as [0, 1] |
| SolverProperties.SharedIdVisits | solver.ts:25-43 | two projects sharing id "3" (efficiencies 1 and 0.5, caps 1 and 2, budget 10): visited in input order |
| SolverProperties.SharedIdPass | solver.ts:40 | in that example the second purchase overwrites the shared entry with 2 |
| SolverProperties.SharedIdReport | solver.ts:53-56 | in that example both rows report 2 units, which at cost 1 sum to 4 |
| SolverProperties.SharedIdMisreports | solver.ts:27-55 | with a shared id both rows show 2 units, above the first project's cap of 1, and totalCost is 3 while the rows sum to 4 |
| App.NatToString | App.tsx:32 | `toString` of a natural number: non-empty decimal digits without a leading zero |
| App.ParseNatToString | App.tsx:32 | reading a printed number back gives the number |
| App.NatToStringInjective | App.tsx:32 | different numbers give different ids |
| App.CanonicalIdsDistinct | App.tsx:32 | ids "1".."n" in list order are distinct |
| App.InitialProjects | App.tsx:10-17 | the six initial projects, field for field, coloured with the first six entries of `COLORS` (App.tsx:19) |
| App.InitialStateValid | App.tsx:10-28 | the initial projects and scenario (budget 50, discount rate 0.08, 5 years) have distinct ids, positive costs, a finite discount and a non-negative budget |
| App.InitialIdsCanonical | App.tsx:10-17 | the initial list has ids "1".."6" in order |
| App.NewProject | App.tsx:34-42 | the project added at position index with a given id: name "Project <id>", cost 5, rent 0.25, growth 0.05, cap 2, colour `COLORS[index mod 8]` |
| App.AddProject | App.tsx:31-43 | appends one project and keeps the earlier ones; the new project has id = length + 1, name "Project <id>", cost 5, rent 0.25, growth 0.05, cap 2, colour COLORS[length mod 8] |
| App.AddKeepsCanonical | App.tsx:31-43 | adding to a list with ids "1".."n" yields ids "1".."n+1" |
| App.AddsOnlyKeepIdsDistinct | App.tsx:31-43 | from ids "1".."n", any number of adds keeps the ids distinct |
| App.MaxIdNumber | App.tsx:32 | the largest number denoted by any id of the list, or 0 |
| App.AddProjectFresh | App.tsx:31-43 | the corrected add: same new project but with an id that no existing project has, so distinct ids stay distinct |
| App.MaxOfCanonical | App.tsx:32 | on ids "1".."n" the largest id number is n |
| App.FreshAgreesWhileCanonical | App.tsx:31-43 | on a list built by adds only, the corrected add equals the original |
| App.FieldsDetermineProject | App.tsx:48 | two projects equal on all seven fields are equal |
| App.SetField | App.tsx:48 | `{ ...p, [field]: value }`: the field takes the value and every other field is unchanged |
| App.SetFieldUnchanged | App.tsx:48 | writing a field's own value changes nothing |
| App.SetFieldOverwrites | App.tsx:48 | of two writes to the same field, the later wins |
| App.UpdateProject | App.tsx:45-50 | keeps the length; projects with another id are unchanged; a matching project gets only that field changed |
| App.UpdateKeepsIds | App.tsx:45-50 | an update of a field other than the id keeps every id, so distinct ids stay distinct |
| App.UpdateAbsentId | App.tsx:45-50 | updating an id no project has changes nothing |
| App.DeleteProject | App.tsx:52-54 | keeps exactly the projects whose id differs |
| App.DeleteDistributes | App.tsx:52-54 | deleting from a concatenation deletes from each part, so the relative order is kept |
| App.DeleteSingle | App.tsx:52-54 | a single project is dropped iff its id matches |
| App.DeleteAbsentId | App.tsx:52-54 | deleting an id no project has changes nothing |
| App.DeleteKeepsIdsDistinct | App.tsx:52-54 | deleting keeps distinct ids distinct |
| App.DeleteThenAddRepeatsId | App.tsx:32-54 | on ids "1","2","3", deleting "1" and adding gives ids "2","3","3" |
| App.EditsKeepIdsDistinct | App.tsx:31-54 | with the corrected add, any sequence of adds, deletes and non-id field updates keeps the ids distinct |
| App.CalculatedProjects | App.tsx:59-61 | the valuation map keeps length, order and every input field, and values each project with `Metrics` |
| App.ValuedCostsPositive | App.tsx:59-61 | positive input costs stay positive after valuation |
| App.Dashboard | App.tsx:59-66 | the solver gets the valued list and the scenario budget: one row per project with its id, totals >= 0, totalCost within a non-negative budget |
| App.DashboardRows | App.tsx:59-66 | with distinct ids each row is within the project's cap, value-destroying projects get 0, and the totals are the sums over the rows |
| App.AffordableAlone | solver.ts:35-37 | a project can be bought once from the full budget iff its cost is within the budget and its cap is positive |
| App.NoViableInvestments | App.tsx:281 | the "no viable investments" row shows iff every value-creating project costs more than the budget or has a cap <= 0 |

## Left out

- Floating point: numbers are exact reals. IEEE rounding, NaN and Infinity are
  not modelled, including the NaN that `parseFloat` can put into a field.
- Finance.Metrics, Finance.CalculateProjectMetrics: require discountRate != -1
  when the horizon is at least one year; the source then divides by zero and
  gets Infinity or NaN. At a zero horizon the rate -1 is allowed, as in the
  source, where `Math.pow(0, 0)` is 1.
- Solver.SolvePortfolio, SolverProperties lemmas: require every viable project
  to have a positive cost. At cost 0 or below the source divides by zero or by
  a negative number; it then buys maxUnits for free or gets a negative count.
- App.Dashboard, App.NoViableInvestments: require every project cost to be
  positive and the same discount condition, for the same reasons.
- Solver.EfficiencyOrder: efficiency is taken as 0 at cost 0. This never
  matters, because only viable projects with positive costs are compared.
- SolverProperties.SolvePerProject, SolverProperties.SolveTotals: need
  distinct ids. With a shared id the record keeps one entry for both projects;
  `SharedIdMisreports` shows the outcome.
- Negative horizons: `years` is a `nat`. The source's loop does nothing for a
  negative horizon, but `Math.pow` would then take a negative exponent.
- The comment in solver.ts (lines 14 and 46-51) speaks of a hill-climbing or
  swap improvement. It is not implemented, so only the greedy pass is
  modelled.
- Optimality is not claimed. The hard-coded `isOptimal: true` is modelled,
  and `GreedyIsNotOptimal` shows it is false for some inputs.
- App.SetField: ill-typed updates are not modelled. The source's field type
  allows any string or number for any field; the model allows only a value of
  the field's own type. The project cards only send well-typed values.
- React state (`useState`, `useMemo`, re-rendering) and all JSX, including the
  display arithmetic (`toFixed`, budget utilisation). `formatCurrency` and
  `formatPercent` (finance.ts:43-55) are formatting only.
- components/ProjectCard.tsx and Charts.tsx are not part of this model.

## Findings

| source | as written | input that shows it | evidently intended | confidence | as-written member | corrected member |
|---|---|---|---|---|---|---|
| App.tsx:32 | the new id is `(projects.length + 1).toString()` | ids "1","2","3"; delete "1", then add: the ids are "2","3","3" | a new project gets an id that no project in the list has | not executed | App.DeleteThenAddRepeatsId | App.AddProjectFresh |

A repeated id matters downstream. The solver keeps one record entry per id
(solver.ts:27-28, 40), so two projects sharing an id share their units.
`SolverProperties.SharedIdMisreports` shows both rows reporting the units
bought last, above the first project's cap, and a totalCost that differs from
the sum over the rows. Updates and deletes by id also hit both projects. The
corrected add takes one more than the largest numeric id in the list. On a
list built by adds only it agrees with the original (`FreshAgreesWhileCanonical`).
`App.EditsKeepIdsDistinct` proves that every stream of adds, deletes and
updates of fields other than the id, started from a list with distinct ids,
keeps the ids distinct; `App.Apply` uses the corrected add. An update of the
id field itself can still make two ids equal.
