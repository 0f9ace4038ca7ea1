/** The records exchanged between the dashboard, the valuation engine and the
    allocation solver. Numbers are idealised as `real`; the horizon is a `nat`
    and the unit cap an `int`. */
module Types {

  /** One investable asset type: identity, display data and static parameters. */
  datatype ProjectInput = ProjectInput(
    id: string,
    name: string,
    cost: real,        // purchase cost of one unit
    rent: real,        // yearly rental income of one unit
    growthRate: real,  // yearly appreciation of the unit's price
    maxUnits: int,     // cap on the number of units bought
    color: string)

  /** A project extended with its valuation. */
  datatype CalculatedProject = CalculatedProject(
    id: string,
    name: string,
    cost: real,
    rent: real,
    growthRate: real,
    maxUnits: int,
    color: string,
    salePrice: real,   // future value of one unit at the horizon
    rentalNPV: real,   // present value of the rent received until the horizon
    totalNPV: real)    // net present value of buying one unit
  {
    /** The input record this valuation extends. */
    function Input(): ProjectInput {
      ProjectInput(id, name, cost, rent, growthRate, maxUnits, color)
    }
  }

  /** Units bought of the project with the given id. */
  datatype OptimizationResult = OptimizationResult(projectId: string, units: int)

  /** Scenario assumptions shared by all projects. */
  datatype GlobalParams = GlobalParams(budget: real, discountRate: real, years: nat)

  /** The solver's answer: one allocation per project plus portfolio totals. */
  datatype SolverResult = SolverResult(
    allocations: seq<OptimizationResult>,
    totalCost: real,
    totalNPV: real,
    isOptimal: bool,
    status: string)
}
