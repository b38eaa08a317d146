/** The three bonus formulas and the calculator that holds one of them.
    Every formula reads only the employee's base salary, so two employees
    with the same base salary get the same bonus whatever their variant.
 */
module Bonuses {
  import opened Outcomes
  import opened Employees

  /** The three strategies. */
  datatype Strategy = PerformanceBonus | SeniorityBonus | ProjectBonus

  /** The keyword arguments a strategy may read; each strategy ignores the
      others' arguments and uses its default for a missing one of its own. */
  datatype BonusArgs = BonusArgs(
    rating: Option<real>, years: Option<int>,
    projectCount: Option<int>, completedProjects: Option<int>)

  const DefaultRating: real := 1.0

  const NoArgs: BonusArgs := BonusArgs(None, None, None, None)

  /** 10% of the base salary, scaled by the rating. */
  function PerformanceAmount(base: real, rating: real): real {
    base * 0.1 * rating
  }

  /** Performance bonus: the amount above, for a rating that must lie in
      [0, 2]. */
  function PerformanceBonusOf(e: Employee, rating: real): (r: Result<real>)
    ensures r.Ok? <==> 0.0 <= rating <= 2.0
    ensures r.Err? ==> r.error == ValueError(RatingOutOfRange)
    ensures r.Ok? && e.baseSalary >= 0.0 ==> 0.0 <= r.value <= 0.2 * e.baseSalary
  {
    if !(0.0 <= rating <= 2.0) then Err(ValueError(RatingOutOfRange))
    else Ok(PerformanceAmount(e.baseSalary, rating))
  }

  /** The seniority share: 5% per year, capped at 50%. */
  function SeniorityShare(years: int): real {
    var share := years as real * 0.05;
    if share <= 0.5 then share else 0.5
  }

  function SeniorityAmount(base: real, years: int): real {
    base * SeniorityShare(years)
  }

  /** Seniority bonus: the capped share of the base salary; negative years
      fail. */
  function SeniorityBonusOf(e: Employee, years: int): (r: Result<real>)
    ensures r.Ok? <==> years >= 0
    ensures r.Err? ==> r.error == ValueError(NegativeYears)
    ensures r.Ok? && e.baseSalary >= 0.0 ==> 0.0 <= r.value <= 0.5 * e.baseSalary
    ensures r.Ok? && years >= 10 ==> r.value == 0.5 * e.baseSalary
  {
    if years < 0 then Err(ValueError(NegativeYears))
    else Ok(SeniorityAmount(e.baseSalary, years))
  }

  /** 3% of the base salary per project plus 5% per completed one. */
  function ProjectAmount(base: real, count: int, completed: int): real {
    base * 0.03 * count as real + base * 0.05 * completed as real
  }

  /** Project bonus: 3% of the base salary per project and a further 5% per
      completed project. Negative counts are checked before the
      completed-exceeds-total check. */
  function ProjectBonusOf(e: Employee, count: int, completed: int): (r: Result<real>)
    ensures r.Ok? <==> 0 <= completed <= count
    ensures (count < 0 || completed < 0) ==> r == Err(ValueError(NegativeProjects))
    ensures count >= 0 && completed >= 0 && completed > count ==> r == Err(ValueError(CompletedExceedsTotal))
    ensures r.Ok? && e.baseSalary >= 0.0 ==> 0.0 <= r.value <= 0.08 * count as real * e.baseSalary
  {
    if count < 0 || completed < 0 then Err(ValueError(NegativeProjects))
    else if completed > count then Err(ValueError(CompletedExceedsTotal))
    else
      assert e.baseSalary >= 0.0 ==>
               e.baseSalary * 0.05 * completed as real <= e.baseSalary * 0.05 * count as real by {
        if e.baseSalary >= 0.0 {
          MultiplyMonotone(e.baseSalary * 0.05, completed as real, count as real);
        }
      }
      Ok(ProjectAmount(e.baseSalary, count, completed))
  }

  lemma MultiplyMonotone(k: real, a: real, b: real)
    requires k >= 0.0 && a <= b
    ensures k * a <= k * b
  {
    assert k * b - k * a == k * (b - a);
  }

  /** `calculate_bonus` of one strategy, with the defaults filled in. */
  function CalculateBonus(s: Strategy, e: Employee, args: BonusArgs): (r: Result<real>)
    ensures s.PerformanceBonus? ==> r == PerformanceBonusOf(e, args.rating.GetOr(DefaultRating))
    ensures s.SeniorityBonus? ==> r == SeniorityBonusOf(e, args.years.GetOr(0))
    ensures s.ProjectBonus? ==>
              r == ProjectBonusOf(e, args.projectCount.GetOr(0), args.completedProjects.GetOr(0))
  {
    match s
    case PerformanceBonus => PerformanceBonusOf(e, args.rating.GetOr(DefaultRating))
    case SeniorityBonus => SeniorityBonusOf(e, args.years.GetOr(0))
    case ProjectBonus => ProjectBonusOf(e, args.projectCount.GetOr(0), args.completedProjects.GetOr(0))
  }

  /** More years never lower the seniority bonus. */
  lemma SeniorityMonotone(e: Employee, y1: int, y2: int)
    requires 0 <= y1 <= y2 && e.baseSalary >= 0.0
    ensures SeniorityBonusOf(e, y1).value <= SeniorityBonusOf(e, y2).value
  {
    ShareMonotone(y1, y2);
    SeniorityAmountMonotone(e.baseSalary, y1, y2);
    assert SeniorityBonusOf(e, y1) == Ok(SeniorityAmount(e.baseSalary, y1));
    assert SeniorityBonusOf(e, y2) == Ok(SeniorityAmount(e.baseSalary, y2));
  }

  lemma ShareMonotone(y1: int, y2: int)
    requires y1 <= y2
    ensures SeniorityShare(y1) <= SeniorityShare(y2)
  {
    assert y1 as real * 0.05 <= y2 as real * 0.05;
  }

  lemma SeniorityAmountMonotone(base: real, y1: int, y2: int)
    requires base >= 0.0 && SeniorityShare(y1) <= SeniorityShare(y2)
    ensures SeniorityAmount(base, y1) <= SeniorityAmount(base, y2)
  {
    MultiplyMonotone(base, SeniorityShare(y1), SeniorityShare(y2));
  }

  /** Without arguments the performance bonus is 10% of the base salary
      and the other two are zero. */
  lemma DefaultBonuses(e: Employee)
    ensures CalculateBonus(PerformanceBonus, e, NoArgs) == Ok(0.1 * e.baseSalary)
    ensures CalculateBonus(SeniorityBonus, e, NoArgs) == Ok(0.0)
    ensures CalculateBonus(ProjectBonus, e, NoArgs) == Ok(0.0)
  {
  }

  /** A bonus depends on the base salary alone, never on the variant or on
      any other field. */
  lemma OnlyBaseSalaryMatters(s: Strategy, a: Employee, b: Employee, args: BonusArgs)
    requires a.baseSalary == b.baseSalary
    ensures CalculateBonus(s, a, args) == CalculateBonus(s, b, args)
  {
  }

  /** The calculator: a strategy, or none. */
  datatype Calculator = Calculator(strategy: Option<Strategy>)

  /** `set_strategy` replaces whatever strategy was held. */
  function SetStrategy(c: Calculator, s: Strategy): (r: Calculator)
    ensures r.strategy == Some(s)
  {
    Calculator(Some(s))
  }

  /** `calculate`: fails without a strategy; otherwise it is exactly the
      held strategy's bonus. */
  function Calculate(c: Calculator, e: Employee, args: BonusArgs): (r: Result<real>)
    ensures c.strategy.None? ==> r == Err(ValueError(NoStrategy))
    ensures c.strategy.Some? ==> r == CalculateBonus(c.strategy.value, e, args)
  {
    match c.strategy
    case None => Err(ValueError(NoStrategy))
    case Some(s) => CalculateBonus(s, e, args)
  }

  /** After a switch only the new strategy decides the bonus. */
  lemma SwitchStrategy(c: Calculator, s: Strategy, e: Employee, args: BonusArgs)
    ensures Calculate(SetStrategy(c, s), e, args) == CalculateBonus(s, e, args)
    ensures Calculate(SetStrategy(SetStrategy(c, PerformanceBonus), s), e, args) == CalculateBonus(s, e, args)
  {
  }

  /** The worked example: a 100 000 base salary with rating 1.5, eight
      years, and five projects of which three are completed. */
  lemma BonusExamples(e: Employee)
    requires e.baseSalary == 100000.0
    ensures PerformanceBonusOf(e, 1.5) == Ok(15000.0)
    ensures SeniorityBonusOf(e, 8) == Ok(40000.0)
    ensures SeniorityBonusOf(e, 20) == Ok(50000.0)
    ensures ProjectBonusOf(e, 5, 3) == Ok(30000.0)
  {
  }
}
