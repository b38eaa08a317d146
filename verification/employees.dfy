/** The employee hierarchy as one closed sum type.

    The four constructors are the four classes of the source: a plain
    `Employee`, a `Manager` with a bonus, a `Developer` with a tech stack and
    a seniority level, and a `Salesperson` with a commission rate and a sales
    volume. Every constructor carries the four inherited fields under the
    same names, so `e.id`, `e.name`, `e.department` and `e.baseSalary` work
    on any variant and `e.(name := n)` updates any variant.

    Construction and every setter validate before they write, and report a
    ValueError naming the field that failed; a failed write returns `Err` and
    the caller keeps the employee it had.
 */
module Employees {
  import opened Outcomes
  import opened Text

  /** The three seniority levels of a developer. */
  datatype Level = Junior | Middle | Senior

  datatype Employee =
    | Employee(id: int, name: string, department: string, baseSalary: real)
    | Manager(id: int, name: string, department: string, baseSalary: real,
              bonus: real)
    | Developer(id: int, name: string, department: string, baseSalary: real,
                techStack: seq<string>, seniority: Level)
    | Salesperson(id: int, name: string, department: string, baseSalary: real,
                  commissionRate: real, salesVolume: real)

  // ---------------------------------------------------------------------
  // Seniority levels

  /** The key of a level in the seniority table. */
  function LevelName(l: Level): string {
    match l
    case Junior => "junior"
    case Middle => "middle"
    case Senior => "senior"
  }

  /** Looks a level name up in the seniority table; the lookup is exact,
      so "Senior" or " senior" are not levels. */
  function ParseLevel(s: string): (r: Option<Level>)
    ensures r.Some? <==> s in {"junior", "middle", "senior"}
    ensures r.Some? ==> LevelName(r.value) == s
  {
    if s == "junior" then Some(Junior)
    else if s == "middle" then Some(Middle)
    else if s == "senior" then Some(Senior)
    else None
  }

  lemma ParseLevelName(l: Level)
    ensures ParseLevel(LevelName(l)) == Some(l)
  {
  }

  /** The salary multiplier of a level. */
  function Coefficient(l: Level): real {
    match l
    case Junior => 1.0
    case Middle => 1.5
    case Senior => 2.0
  }

  // ---------------------------------------------------------------------
  // Field constraints

  predicate ValidId(id: int) { id > 0 }
  predicate ValidName(name: string) { !IsBlank(name) }
  predicate ValidBaseSalary(b: real) { b >= 0.0 }
  predicate ValidBonus(b: real) { b >= 0.0 }
  predicate ValidRate(r: real) { 0.0 <= r <= 1.0 }
  predicate ValidVolume(v: real) { v >= 0.0 }

  /** Every entry of a tech stack is a non-blank string. */
  predicate ValidStack(stack: seq<string>) {
    forall i :: 0 <= i < |stack| ==> !IsBlank(stack[i])
  }

  /** What the constructors establish. The department is not checked by
      any constructor, so a blank department is allowed here. */
  predicate Valid(e: Employee) {
    && ValidId(e.id)
    && ValidName(e.name)
    && ValidBaseSalary(e.baseSalary)
    && match e
       case Employee(_, _, _, _) => true
       case Manager(_, _, _, _, bonus) => ValidBonus(bonus)
       case Developer(_, _, _, _, stack, _) => ValidStack(stack)
       case Salesperson(_, _, _, _, rate, volume) => ValidRate(rate) && ValidVolume(volume)
  }

  /** The first of the inherited checks that fails, in the constructor's
      order: id, then name, then base salary. */
  function BaseViolation(id: int, name: string, baseSalary: real): (f: Option<Field>)
    ensures f.None? <==> ValidId(id) && ValidName(name) && ValidBaseSalary(baseSalary)
    ensures !ValidId(id) ==> f == Some(IdField)
    ensures ValidId(id) && !ValidName(name) ==> f == Some(NameField)
    ensures ValidId(id) && ValidName(name) && !ValidBaseSalary(baseSalary) ==> f == Some(BaseSalaryField)
  {
    if !ValidId(id) then Some(IdField)
    else if !ValidName(name) then Some(NameField)
    else if !ValidBaseSalary(baseSalary) then Some(BaseSalaryField)
    else None
  }

  // ---------------------------------------------------------------------
  // Constructors

  function NewEmployee(id: int, name: string, department: string, baseSalary: real): (r: Result<Employee>)
    ensures r.Ok? <==> ValidId(id) && ValidName(name) && ValidBaseSalary(baseSalary)
    ensures r.Ok? ==> r.value == Employee(id, name, department, baseSalary) && Valid(r.value)
    ensures r.Err? ==> r.error == ValueError(Invalid(BaseViolation(id, name, baseSalary).value))
  {
    match BaseViolation(id, name, baseSalary)
    case Some(f) => Err(ValueError(Invalid(f)))
    case None => Ok(Employee(id, name, department, baseSalary))
  }

  function NewManager(id: int, name: string, department: string, baseSalary: real, bonus: real): (r: Result<Employee>)
    ensures r.Ok? <==> ValidId(id) && ValidName(name) && ValidBaseSalary(baseSalary) && ValidBonus(bonus)
    ensures r.Ok? ==> r.value == Manager(id, name, department, baseSalary, bonus) && Valid(r.value)
    ensures BaseViolation(id, name, baseSalary).Some? ==>
              r == Err(ValueError(Invalid(BaseViolation(id, name, baseSalary).value)))
    ensures BaseViolation(id, name, baseSalary).None? && !ValidBonus(bonus) ==>
              r == Err(ValueError(Invalid(BonusField)))
  {
    match BaseViolation(id, name, baseSalary)
    case Some(f) => Err(ValueError(Invalid(f)))
    case None =>
      if !ValidBonus(bonus) then Err(ValueError(Invalid(BonusField)))
      else Ok(Manager(id, name, department, baseSalary, bonus))
  }

  /** The level is checked before the tech stack; the stack is kept as
      given, duplicates included. */
  function NewDeveloper(id: int, name: string, department: string, baseSalary: real,
                        techStack: seq<string>, level: string): (r: Result<Employee>)
    ensures r.Ok? <==> && ValidId(id) && ValidName(name) && ValidBaseSalary(baseSalary)
                       && ParseLevel(level).Some? && ValidStack(techStack)
    ensures r.Ok? ==> && ParseLevel(level).Some?
                      && r.value == Developer(id, name, department, baseSalary, techStack, ParseLevel(level).value)
                      && Valid(r.value)
    ensures BaseViolation(id, name, baseSalary).Some? ==>
              r == Err(ValueError(Invalid(BaseViolation(id, name, baseSalary).value)))
    ensures BaseViolation(id, name, baseSalary).None? && ParseLevel(level).None? ==>
              r == Err(ValueError(Invalid(SeniorityField)))
    ensures BaseViolation(id, name, baseSalary).None? && ParseLevel(level).Some? && !ValidStack(techStack) ==>
              r == Err(ValueError(Invalid(TechStackField)))
  {
    match BaseViolation(id, name, baseSalary)
    case Some(f) => Err(ValueError(Invalid(f)))
    case None =>
      match ParseLevel(level)
      case None => Err(ValueError(Invalid(SeniorityField)))
      case Some(l) =>
        if !ValidStack(techStack) then Err(ValueError(Invalid(TechStackField)))
        else Ok(Developer(id, name, department, baseSalary, techStack, l))
  }

  /** The commission rate is checked before the sales volume. */
  function NewSalesperson(id: int, name: string, department: string, baseSalary: real,
                          rate: real, volume: real): (r: Result<Employee>)
    ensures r.Ok? <==> && ValidId(id) && ValidName(name) && ValidBaseSalary(baseSalary)
                       && ValidRate(rate) && ValidVolume(volume)
    ensures r.Ok? ==> r.value == Salesperson(id, name, department, baseSalary, rate, volume) && Valid(r.value)
    ensures BaseViolation(id, name, baseSalary).Some? ==>
              r == Err(ValueError(Invalid(BaseViolation(id, name, baseSalary).value)))
    ensures BaseViolation(id, name, baseSalary).None? && !ValidRate(rate) ==>
              r == Err(ValueError(Invalid(CommissionRateField)))
    ensures BaseViolation(id, name, baseSalary).None? && ValidRate(rate) && !ValidVolume(volume) ==>
              r == Err(ValueError(Invalid(SalesVolumeField)))
  {
    match BaseViolation(id, name, baseSalary)
    case Some(f) => Err(ValueError(Invalid(f)))
    case None =>
      if !ValidRate(rate) then Err(ValueError(Invalid(CommissionRateField)))
      else if !ValidVolume(volume) then Err(ValueError(Invalid(SalesVolumeField)))
      else Ok(Salesperson(id, name, department, baseSalary, rate, volume))
  }

  // ---------------------------------------------------------------------
  // Setters: validate, then write; a failed write changes nothing

  function SetId(e: Employee, v: int): (r: Result<Employee>)
    ensures r.Ok? <==> ValidId(v)
    ensures r.Ok? ==> r.value == e.(id := v)
    ensures r.Err? ==> r.error == ValueError(Invalid(IdField))
  {
    if ValidId(v) then Ok(e.(id := v)) else Err(ValueError(Invalid(IdField)))
  }

  function SetName(e: Employee, v: string): (r: Result<Employee>)
    ensures r.Ok? <==> ValidName(v)
    ensures r.Ok? ==> r.value == e.(name := v)
    ensures r.Err? ==> r.error == ValueError(Invalid(NameField))
  {
    if ValidName(v) then Ok(e.(name := v)) else Err(ValueError(Invalid(NameField)))
  }

  /** Unlike the constructor, the department setter rejects a blank value. */
  function SetDepartment(e: Employee, v: string): (r: Result<Employee>)
    ensures r.Ok? <==> !IsBlank(v)
    ensures r.Ok? ==> r.value == e.(department := v)
    ensures r.Err? ==> r.error == ValueError(Invalid(DepartmentField))
  {
    if !IsBlank(v) then Ok(e.(department := v)) else Err(ValueError(Invalid(DepartmentField)))
  }

  function SetBaseSalary(e: Employee, v: real): (r: Result<Employee>)
    ensures r.Ok? <==> ValidBaseSalary(v)
    ensures r.Ok? ==> r.value == e.(baseSalary := v)
    ensures r.Err? ==> r.error == ValueError(Invalid(BaseSalaryField))
  {
    if ValidBaseSalary(v) then Ok(e.(baseSalary := v)) else Err(ValueError(Invalid(BaseSalaryField)))
  }

  function SetBonus(e: Employee, v: real): (r: Result<Employee>)
    requires e.Manager?
    ensures r.Ok? <==> ValidBonus(v)
    ensures r.Ok? ==> r.value == e.(bonus := v)
    ensures r.Err? ==> r.error == ValueError(Invalid(BonusField))
  {
    if ValidBonus(v) then Ok(e.(bonus := v)) else Err(ValueError(Invalid(BonusField)))
  }

  function SetSeniority(e: Employee, level: string): (r: Result<Employee>)
    requires e.Developer?
    ensures r.Ok? <==> level in {"junior", "middle", "senior"}
    ensures r.Ok? ==> ParseLevel(level).Some? && r.value == e.(seniority := ParseLevel(level).value)
    ensures r.Err? ==> r.error == ValueError(Invalid(SeniorityField))
  {
    match ParseLevel(level)
    case Some(l) => Ok(e.(seniority := l))
    case None => Err(ValueError(Invalid(SeniorityField)))
  }

  /** A blank skill is rejected, a skill already in the stack changes
      nothing, and a new skill goes to the end. */
  function AddSkill(e: Employee, skill: string): (r: Result<Employee>)
    requires e.Developer?
    ensures r.Err? <==> IsBlank(skill)
    ensures r.Err? ==> r.error == ValueError(Invalid(SkillField))
    ensures r.Ok? && skill in e.techStack ==> r.value == e
    ensures r.Ok? && skill !in e.techStack ==> r.value == e.(techStack := e.techStack + [skill])
    ensures r.Ok? ==> skill in r.value.techStack
  {
    if IsBlank(skill) then Err(ValueError(Invalid(SkillField)))
    else if skill in e.techStack then Ok(e)
    else Ok(e.(techStack := e.techStack + [skill]))
  }

  function SetCommissionRate(e: Employee, v: real): (r: Result<Employee>)
    requires e.Salesperson?
    ensures r.Ok? <==> ValidRate(v)
    ensures r.Ok? ==> r.value == e.(commissionRate := v)
    ensures r.Err? ==> r.error == ValueError(Invalid(CommissionRateField))
  {
    if ValidRate(v) then Ok(e.(commissionRate := v)) else Err(ValueError(Invalid(CommissionRateField)))
  }

  function SetSalesVolume(e: Employee, v: real): (r: Result<Employee>)
    requires e.Salesperson?
    ensures r.Ok? <==> ValidVolume(v)
    ensures r.Ok? ==> r.value == e.(salesVolume := v)
    ensures r.Err? ==> r.error == ValueError(Invalid(SalesVolumeField))
  {
    if ValidVolume(v) then Ok(e.(salesVolume := v)) else Err(ValueError(Invalid(SalesVolumeField)))
  }

  /** Adds new sales to the running volume; negative amounts are refused. */
  function UpdateSales(e: Employee, amount: real): (r: Result<Employee>)
    requires e.Salesperson?
    ensures r.Ok? <==> amount >= 0.0
    ensures r.Ok? ==> r.value.Salesperson? && r.value.salesVolume - e.salesVolume == amount
    ensures r.Ok? ==> r.value == e.(salesVolume := r.value.salesVolume)
    ensures r.Err? ==> r.error == ValueError(Invalid(NewSalesField))
  {
    if amount < 0.0 then Err(ValueError(Invalid(NewSalesField)))
    else Ok(e.(salesVolume := e.salesVolume + amount))
  }

  /** Every successful setter keeps an employee valid. */
  lemma {:induction false} SettersPreserveValid(e: Employee, id: int, name: string, dept: string, base: real, x: real, s: string)
    requires Valid(e)
    ensures SetId(e, id).Ok? ==> Valid(SetId(e, id).value)
    ensures SetName(e, name).Ok? ==> Valid(SetName(e, name).value)
    ensures SetDepartment(e, dept).Ok? ==> Valid(SetDepartment(e, dept).value)
    ensures SetBaseSalary(e, base).Ok? ==> Valid(SetBaseSalary(e, base).value)
    ensures e.Manager? && SetBonus(e, x).Ok? ==> Valid(SetBonus(e, x).value)
    ensures e.Developer? && SetSeniority(e, s).Ok? ==> Valid(SetSeniority(e, s).value)
    ensures e.Developer? && AddSkill(e, s).Ok? ==> Valid(AddSkill(e, s).value)
    ensures e.Salesperson? && SetCommissionRate(e, x).Ok? ==> Valid(SetCommissionRate(e, x).value)
    ensures e.Salesperson? && SetSalesVolume(e, x).Ok? ==> Valid(SetSalesVolume(e, x).value)
    ensures e.Salesperson? && UpdateSales(e, x).Ok? ==> Valid(UpdateSales(e, x).value)
  {
    if e.Developer? && AddSkill(e, s).Ok? && s !in e.techStack {
      var st := e.techStack + [s];
      assert forall i :: 0 <= i < |st| ==> st[i] == s || st[i] == e.techStack[i];
    }
  }

  // ---------------------------------------------------------------------
  // Salary

  /** `calculate_salary`, dispatched on the variant. */
  function Salary(e: Employee): real {
    match e
    case Employee(_, _, _, base) => base
    case Manager(_, _, _, base, bonus) => base + bonus
    case Developer(_, _, _, base, _, level) => base * Coefficient(level)
    case Salesperson(_, _, _, base, rate, volume) => base + volume * rate
  }

  /** A valid employee never earns less than the base salary, and a
      developer earns at most twice the base. */
  lemma SalaryBounds(e: Employee)
    requires Valid(e)
    ensures Salary(e) >= e.baseSalary >= 0.0
    ensures e.Employee? ==> Salary(e) == e.baseSalary
    ensures e.Developer? ==> Salary(e) <= 2.0 * e.baseSalary
    ensures e.Manager? ==> Salary(e) - e.baseSalary == e.bonus
  {
    if e.Salesperson? {
      assert e.salesVolume * e.commissionRate >= 0.0;
    }
  }

  /** Adding sales never lowers a salesperson's salary. */
  lemma UpdateSalesRaisesSalary(e: Employee, amount: real)
    requires e.Salesperson? && Valid(e)
    requires UpdateSales(e, amount).Ok?
    ensures Salary(UpdateSales(e, amount).value) >= Salary(e)
    ensures Salary(UpdateSales(e, amount).value) - Salary(e) == amount * e.commissionRate
  {
    assert amount * e.commissionRate >= 0.0;
  }

  /** One worked salary per variant. */
  lemma SalaryExamples()
    ensures Salary(Manager(1, "A", "D", 70000.0, 20000.0)) == 90000.0
    ensures Salary(Developer(2, "B", "D", 50000.0, [], Senior)) == 100000.0
    ensures Salary(Salesperson(3, "C", "D", 40000.0, 0.15, 100000.0)) == 55000.0
    ensures Salary(Employee(4, "E", "D", 50000.0)) == 50000.0
  {
  }

  // ---------------------------------------------------------------------
  // Operators

  /** `a == b`: employees are the same person exactly when their ids match,
      whatever their variants and other fields. */
  predicate SameEmployee(a: Employee, b: Employee) {
    a.id == b.id
  }

  /** `a < b`: ordered by computed salary, not by id. */
  predicate LessPaid(a: Employee, b: Employee) {
    Salary(a) < Salary(b)
  }

  /** `__eq__` is an equivalence that ignores everything but the id, and it
      is independent of `__lt__`: an employee can equal one it earns less
      than. */
  lemma EqualityIgnoresVariant(a: Employee, b: Employee)
    requires a.id == b.id
    ensures SameEmployee(a, b) && SameEmployee(b, a)
    ensures SameEmployee(Manager(a.id, "x", "y", 1.0, 1.0), Employee(a.id, "z", "w", 2.0))
    ensures LessPaid(Employee(a.id, "x", "y", 1.0), Manager(a.id, "x", "y", 1.0, 1.0))
  {
  }

  /** `__lt__` is a strict order whose incomparable pairs are exactly the
      equally-paid ones. */
  lemma LessPaidIsStrictWeakOrder(a: Employee, b: Employee, c: Employee)
    ensures !LessPaid(a, a)
    ensures LessPaid(a, b) ==> !LessPaid(b, a)
    ensures LessPaid(a, b) && LessPaid(b, c) ==> LessPaid(a, c)
    ensures !LessPaid(a, b) && !LessPaid(b, a) <==> Salary(a) == Salary(b)
  {
  }

  /** `a + b`: the sum of the two computed salaries, which is what `sum()`
      gives for the two-element list. */
  function Plus(a: Employee, b: Employee): (r: real)
    ensures r == SumFrom(0.0, [a, b])
  {
    SumStep(0.0, [a, b]);
    SumStep(RPlus(0.0, a), [b]);
    Salary(a) + Salary(b)
  }

  /** `a + b == b + a`, and adding a third employee's salary to `a + b`
      gives `sum()` of the three. */
  lemma PlusCommutes(a: Employee, b: Employee, c: Employee)
    ensures Plus(a, b) == Plus(b, a)
    ensures RPlus(Plus(a, b), c) == SumFrom(0.0, [a, b, c])
  {
    SumStep(0.0, [a, b, c]);
    SumStep(RPlus(0.0, a), [b, c]);
    SumStep(RPlus(RPlus(0.0, a), b), [c]);
  }

  /** One step of the `sum()` fold. */
  lemma SumStep(acc: real, es: seq<Employee>)
    requires |es| > 0
    ensures SumFrom(acc, es) == SumFrom(acc + Salary(es[0]), es[1..])
    ensures |es| == 1 ==> SumFrom(acc, es) == acc + Salary(es[0])
  {
  }

  /** `other + e` for a number `other`, which is what `sum()` uses. */
  function RPlus(acc: real, e: Employee): (r: real)
    ensures r - acc == Salary(e)
  {
    if acc == 0.0 then Salary(e) else acc + Salary(e)
  }

  /** `sum(es)`: folds `RPlus` from the left, starting at 0. */
  function SumFrom(acc: real, es: seq<Employee>): real
    decreases |es|
  {
    if |es| == 0 then acc else SumFrom(RPlus(acc, es[0]), es[1..])
  }

  /** The sum of the computed salaries, as a plain recursive total. */
  function TotalSalary(es: seq<Employee>): real
    decreases |es|
  {
    if |es| == 0 then 0.0 else TotalSalary(es[..|es| - 1]) + Salary(es[|es| - 1])
  }

  lemma {:induction false} TotalSalaryAppend(es: seq<Employee>, fs: seq<Employee>)
    ensures TotalSalary(es + fs) == TotalSalary(es) + TotalSalary(fs)
    decreases |fs|
  {
    if |fs| == 0 {
      assert es + fs == es;
    } else {
      assert (es + fs)[..|es + fs| - 1] == es + fs[..|fs| - 1];
      TotalSalaryAppend(es, fs[..|fs| - 1]);
    }
  }

  lemma {:induction false} TotalSalaryCons(e: Employee, es: seq<Employee>)
    ensures TotalSalary([e] + es) == Salary(e) + TotalSalary(es)
  {
    TotalSalaryAppend([e], es);
    assert [e][..0] == [];
  }

  /** Dropping the member at position `k` lowers the total by its salary. */
  lemma {:induction false} TotalSalaryWithout(es: seq<Employee>, k: nat)
    requires k < |es|
    ensures TotalSalary(es[..k] + es[k + 1..]) == TotalSalary(es) - Salary(es[k])
  {
    assert es == es[..k] + ([es[k]] + es[k + 1..]);
    TotalSalaryAppend(es[..k], [es[k]] + es[k + 1..]);
    TotalSalaryCons(es[k], es[k + 1..]);
    TotalSalaryAppend(es[..k], es[k + 1..]);
  }

  /** Folding a list with the additive combine and seed 0 gives the total
      of the salaries. */
  lemma {:induction false} SumIsTotalSalary(acc: real, es: seq<Employee>)
    ensures SumFrom(acc, es) == acc + TotalSalary(es)
    decreases |es|
  {
    if |es| > 0 {
      SumIsTotalSalary(RPlus(acc, es[0]), es[1..]);
      assert es == [es[0]] + es[1..];
      TotalSalaryCons(es[0], es[1..]);
    }
  }

  /** A list of valid employees costs at least nothing. */
  lemma {:induction false} TotalSalaryNonNegative(es: seq<Employee>)
    requires forall i :: 0 <= i < |es| ==> Valid(es[i])
    ensures TotalSalary(es) >= 0.0
    decreases |es|
  {
    if |es| > 0 {
      TotalSalaryNonNegative(es[..|es| - 1]);
      SalaryBounds(es[|es| - 1]);
    }
  }

  // ---------------------------------------------------------------------
  // Records

  /** The dictionary an employee is saved as. The four inherited keys are
      always present; the other keys may be missing. */
  datatype EmployeeRecord = EmployeeRecord(
    tag: Option<string>,
    id: int, name: string, department: string, baseSalary: real,
    bonus: Option<real>,
    techStack: Option<seq<string>>, seniority: Option<string>,
    commissionRate: Option<real>, salesVolume: Option<real>)

  /** The class name an employee is tagged with. */
  function TypeName(e: Employee): string {
    match e
    case Employee(_, _, _, _) => "Employee"
    case Manager(_, _, _, _, _) => "Manager"
    case Developer(_, _, _, _, _, _) => "Developer"
    case Salesperson(_, _, _, _, _, _) => "Salesperson"
  }

  /** `to_dict`: the tag, the inherited fields and the variant's own. */
  function ToRecord(e: Employee): (r: EmployeeRecord)
    ensures r.tag == Some(TypeName(e))
    ensures r.id == e.id && r.name == e.name && r.department == e.department
    ensures r.baseSalary == e.baseSalary
    ensures r.bonus.Some? <==> e.Manager?
    ensures r.techStack.Some? <==> e.Developer?
    ensures r.seniority.Some? <==> e.Developer?
    ensures r.commissionRate.Some? <==> e.Salesperson?
    ensures r.salesVolume.Some? <==> e.Salesperson?
  {
    var base := EmployeeRecord(Some(TypeName(e)), e.id, e.name, e.department, e.baseSalary,
                               None, None, None, None, None);
    match e
    case Employee(_, _, _, _) => base
    case Manager(_, _, _, _, bonus) => base.(bonus := Some(bonus))
    case Developer(_, _, _, _, stack, level) =>
      base.(techStack := Some(stack), seniority := Some(LevelName(level)))
    case Salesperson(_, _, _, _, rate, volume) =>
      base.(commissionRate := Some(rate), salesVolume := Some(volume))
  }

  /** `Employee.from_dict`: the inherited keys only; the tag is ignored. */
  function EmployeeFromRecord(r: EmployeeRecord): Result<Employee> {
    NewEmployee(r.id, r.name, r.department, r.baseSalary)
  }

  /** `Manager.from_dict`: a missing bonus reads as 0. */
  function ManagerFromRecord(r: EmployeeRecord): Result<Employee> {
    NewManager(r.id, r.name, r.department, r.baseSalary, r.bonus.GetOr(0.0))
  }

  /** `Developer.from_dict`: a missing stack reads as empty, a missing level
      as "junior". */
  function DeveloperFromRecord(r: EmployeeRecord): Result<Employee> {
    NewDeveloper(r.id, r.name, r.department, r.baseSalary, r.techStack.GetOr([]), r.seniority.GetOr("junior"))
  }

  /** `Salesperson.from_dict`: a missing rate or volume reads as 0. */
  function SalespersonFromRecord(r: EmployeeRecord): Result<Employee> {
    NewSalesperson(r.id, r.name, r.department, r.baseSalary, r.commissionRate.GetOr(0.0), r.salesVolume.GetOr(0.0))
  }

  /** Each class's `from_dict` restores what its `to_dict` wrote. */
  lemma ClassRoundTrip(e: Employee)
    requires Valid(e)
    ensures e.Employee? ==> EmployeeFromRecord(ToRecord(e)) == Ok(e)
    ensures e.Manager? ==> ManagerFromRecord(ToRecord(e)) == Ok(e)
    ensures e.Developer? ==> DeveloperFromRecord(ToRecord(e)) == Ok(e)
    ensures e.Salesperson? ==> SalespersonFromRecord(ToRecord(e)) == Ok(e)
  {
    if e.Developer? {
      ParseLevelName(e.seniority);
    }
  }

  /** The defaults `from_dict` fills in for a record holding only the
      inherited keys. */
  lemma FromRecordDefaults(id: int, name: string, dept: string, base: real)
    requires ValidId(id) && ValidName(name) && ValidBaseSalary(base)
    ensures var r := EmployeeRecord(None, id, name, dept, base, None, None, None, None, None);
            && ManagerFromRecord(r) == Ok(Manager(id, name, dept, base, 0.0))
            && DeveloperFromRecord(r) == Ok(Developer(id, name, dept, base, [], Junior))
            && SalespersonFromRecord(r) == Ok(Salesperson(id, name, dept, base, 0.0, 0.0))
  {
  }
}
