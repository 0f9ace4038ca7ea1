/** Discounted-cash-flow valuation of one project (finance.ts). */
module Finance {
  import opened Types

  /** x raised to the n-th power, as `Math.pow` with an integral exponent. */
  function Pow(x: real, n: nat): (r: real)
    ensures x != 0.0 ==> r != 0.0
    ensures x > 0.0 ==> r > 0.0
  {
    if n == 0 then 1.0 else x * Pow(x, n - 1)
  }

  /** Discounting stays finite: 1 + discountRate is raised to a positive
      power and divided by only when the horizon is at least one year. */
  predicate DefinedDiscount(discountRate: real, years: nat) {
    years == 0 || discountRate != -1.0
  }

  /** Present value of `rent` received at the end of each of the first
      `years` years: the sum for k = 1 .. years of rent / (1 + discountRate)^k. */
  function RentalPV(rent: real, discountRate: real, years: nat): (r: real)
    requires DefinedDiscount(discountRate, years)
    ensures rent >= 0.0 && discountRate > -1.0 ==> r >= 0.0
  {
    if years == 0 then 0.0
    else RentalPV(rent, discountRate, years - 1) + rent / Pow(1.0 + discountRate, years)
  }

  /** The valuation record of `project` under `params`. */
  function Metrics(project: ProjectInput, params: GlobalParams): (c: CalculatedProject)
    requires DefinedDiscount(params.discountRate, params.years)
    ensures c.Input() == project
  {
    var rentalPV := RentalPV(project.rent, params.discountRate, params.years);
    var futureValue := project.cost * Pow(1.0 + project.growthRate, params.years);
    var salePV := futureValue / Pow(1.0 + params.discountRate, params.years);
    CalculatedProject(project.id, project.name, project.cost, project.rent,
                      project.growthRate, project.maxUnits, project.color,
                      futureValue, rentalPV, -project.cost + rentalPV + salePV)
  }

  /** The valuation, with the rental present value accumulated year by year. */
  method CalculateProjectMetrics(project: ProjectInput, params: GlobalParams)
    returns (c: CalculatedProject)
    requires DefinedDiscount(params.discountRate, params.years)
    ensures c.rentalNPV == RentalPV(project.rent, params.discountRate, params.years)
    ensures c == Metrics(project, params)
  {
    var rentalPV := 0.0;
    var k := 1;
    while k <= params.years
      invariant 1 <= k <= params.years + 1
      invariant rentalPV == RentalPV(project.rent, params.discountRate, k - 1)
    {
      rentalPV := rentalPV + project.rent / Pow(1.0 + params.discountRate, k);
      k := k + 1;
    }
    var futureValue := project.cost * Pow(1.0 + project.growthRate, params.years);
    var salePV := futureValue / Pow(1.0 + params.discountRate, params.years);
    var totalNPV := -project.cost + rentalPV + salePV;
    c := CalculatedProject(project.id, project.name, project.cost, project.rent,
                           project.growthRate, project.maxUnits, project.color,
                           futureValue, rentalPV, totalNPV);
  }

  /** The net present value decomposes as the source's formula says. */
  lemma MetricsDecompose(project: ProjectInput, params: GlobalParams)
    requires DefinedDiscount(params.discountRate, params.years)
    ensures var c := Metrics(project, params);
      && c.salePrice == project.cost * Pow(1.0 + project.growthRate, params.years)
      && c.rentalNPV == RentalPV(project.rent, params.discountRate, params.years)
      && c.totalNPV == -project.cost + c.rentalNPV + c.salePrice / Pow(1.0 + params.discountRate, params.years)
  {
  }

  /** With a zero horizon nothing is discounted: the sale price is the cost,
      no rent is earned and the project breaks even. */
  lemma ZeroHorizon(project: ProjectInput, params: GlobalParams)
    requires params.years == 0
    ensures var c := Metrics(project, params);
      c.salePrice == project.cost && c.rentalNPV == 0.0 && c.totalNPV == 0.0
      && c.salePrice == c.totalNPV + project.cost
  {
    assert Pow(1.0 + project.growthRate, 0) == 1.0;
    assert Pow(1.0 + params.discountRate, 0) == 1.0;
  }

  /** No rent is worth nothing at any horizon. */
  lemma {:induction false} RentalPVOfNoRent(discountRate: real, years: nat)
    requires DefinedDiscount(discountRate, years)
    ensures RentalPV(0.0, discountRate, years) == 0.0
  {
    if years > 0 {
      RentalPVOfNoRent(discountRate, years - 1);
    }
  }

  /** A rent-free project whose price grows at the discount rate breaks even
      whatever the horizon. */
  lemma BreakEvenWhenRentFreeAndGrowthIsDiscount(project: ProjectInput, params: GlobalParams)
    requires DefinedDiscount(params.discountRate, params.years)
    requires project.rent == 0.0 && project.growthRate == params.discountRate
    ensures Metrics(project, params).totalNPV == 0.0
  {
    RentalPVOfNoRent(params.discountRate, params.years);
    var p := Pow(1.0 + params.discountRate, params.years);
    assert p != 0.0;
    assert (project.cost * p) / p == project.cost;
  }

  lemma {:induction false} PowOfOne(n: nat)
    ensures Pow(1.0, n) == 1.0
  {
    if n > 0 {
      PowOfOne(n - 1);
    }
  }

  /** Without discounting the rental value is the plain sum of the rents. */
  lemma {:induction false} RentalPVUndiscounted(rent: real, years: nat)
    ensures RentalPV(rent, 0.0, years) == rent * years as real
  {
    if years > 0 {
      RentalPVUndiscounted(rent, years - 1);
      PowOfOne(years);
    }
  }

  /** With a non-negative rent and a discount rate above -100%, a longer
      horizon never lowers the rental value. */
  lemma {:induction false} RentalPVMonotone(rent: real, discountRate: real, m: nat, n: nat)
    requires rent >= 0.0 && discountRate > -1.0 && m <= n
    ensures 0.0 <= RentalPV(rent, discountRate, m) <= RentalPV(rent, discountRate, n)
  {
    if m < n {
      RentalPVMonotone(rent, discountRate, m, n - 1);
      var p := Pow(1.0 + discountRate, n);
      assert p > 0.0;
      assert rent / p >= 0.0;
    }
  }

  /** The year-by-year sum agrees with the closed-form annuity formula
      rent / r * (1 - 1 / (1 + r)^years) whenever r is neither 0 nor -1. */
  lemma {:induction false} RentalPVClosedForm(rent: real, discountRate: real, years: nat)
    requires discountRate != -1.0 && discountRate != 0.0
    ensures RentalPV(rent, discountRate, years)
         == rent / discountRate * (1.0 - 1.0 / Pow(1.0 + discountRate, years))
  {
    if years > 0 {
      RentalPVClosedForm(rent, discountRate, years - 1);
      var x := 1.0 + discountRate;
      var p := Pow(x, years - 1);
      assert Pow(x, years) == x * p;
      assert p != 0.0;
      AnnuityStep(rent, discountRate, p);
    }
  }

  /** One year of the closed form: the term added is rent / (x * p). */
  lemma AnnuityStep(rent: real, r: real, p: real)
    requires r != -1.0 && r != 0.0 && p != 0.0
    ensures rent / r * (1.0 - 1.0 / p) + rent / ((1.0 + r) * p)
         == rent / r * (1.0 - 1.0 / ((1.0 + r) * p))
  {
    var x := 1.0 + r;
    assert 1.0 / p - 1.0 / (x * p) == (x - 1.0) / (x * p);
    assert rent / r * ((x - 1.0) / (x * p)) == rent / (x * p);
  }
}
