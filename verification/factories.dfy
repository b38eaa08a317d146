/** The construction registry: a type tag, lower-cased, selects one of three
    factories, each of which calls the matching constructor and fills in the
    optional parameters it was not given. The tag "employee" is answered
    before the registry is consulted, so no registration can change it.

    The registry is a class-level dictionary in the source; here it is a
    value, and `Register` returns the updated one.
 */
module Factories {
  import opened Outcomes
  import opened Text
  import opened Employees

  /** The three concrete factories. Factory classes defined outside the
      repository are not modelled. */
  datatype Factory = ManagerFactory | DeveloperFactory | SalespersonFactory

  /** Keyword arguments. The four inherited fields are always given; the
      variant-specific ones may be missing. */
  datatype Params = Params(
    id: int, name: string, department: string, baseSalary: real,
    bonus: Option<real>, techStack: Option<seq<string>>, seniority: Option<string>,
    commissionRate: Option<real>, salesVolume: Option<real>)

  /** Tag to factory; keys are stored lower-cased. */
  type Registry = map<string, Factory>

  const PlainTag: string := "employee"

  const DefaultRegistry: Registry :=
    map["manager" := ManagerFactory, "developer" := DeveloperFactory, "salesperson" := SalespersonFactory]

  /** The variant a factory builds. */
  predicate Builds(f: Factory, e: Employee) {
    match f
    case ManagerFactory => e.Manager?
    case DeveloperFactory => e.Developer?
    case SalespersonFactory => e.Salesperson?
  }

  /** `create_employee` of one concrete factory: missing bonus and commission
      are 0, a missing sales volume 0.0, a missing stack empty and a missing
      level "junior"; parameters meant for another variant are ignored. */
  function Build(f: Factory, p: Params): (r: Result<Employee>)
    ensures r.Ok? ==> Builds(f, r.value) && Valid(r.value)
    ensures r.Ok? ==> && r.value.id == p.id && r.value.name == p.name
                      && r.value.department == p.department && r.value.baseSalary == p.baseSalary
    ensures f.ManagerFactory? ==> r == NewManager(p.id, p.name, p.department, p.baseSalary, p.bonus.GetOr(0.0))
    ensures f.DeveloperFactory? ==>
              r == NewDeveloper(p.id, p.name, p.department, p.baseSalary,
                                p.techStack.GetOr([]), p.seniority.GetOr("junior"))
    ensures f.SalespersonFactory? ==>
              r == NewSalesperson(p.id, p.name, p.department, p.baseSalary,
                                  p.commissionRate.GetOr(0.0), p.salesVolume.GetOr(0.0))
  {
    match f
    case ManagerFactory =>
      NewManager(p.id, p.name, p.department, p.baseSalary, p.bonus.GetOr(0.0))
    case DeveloperFactory =>
      NewDeveloper(p.id, p.name, p.department, p.baseSalary, p.techStack.GetOr([]), p.seniority.GetOr("junior"))
    case SalespersonFactory =>
      NewSalesperson(p.id, p.name, p.department, p.baseSalary,
                     p.commissionRate.GetOr(0.0), p.salesVolume.GetOr(0.0))
  }

  /** `EmployeeFactoryRegistry.create_employee`: the tag is lower-cased;
      "employee" builds a plain employee; an unregistered tag fails naming
      the registered ones; any other tag goes to its factory. */
  function Create(reg: Registry, tag: string, p: Params): (r: Result<Employee>)
    ensures Lower(tag) == PlainTag ==> r == NewEmployee(p.id, p.name, p.department, p.baseSalary)
    ensures Lower(tag) != PlainTag && Lower(tag) !in reg ==> r == Err(ValueError(UnknownType(reg.Keys)))
    ensures Lower(tag) != PlainTag && Lower(tag) in reg ==> r == Build(reg[Lower(tag)], p)
    ensures r.Ok? ==> r.value.id == p.id && r.value.name == p.name && Valid(r.value)
  {
    var t := Lower(tag);
    if t == PlainTag then NewEmployee(p.id, p.name, p.department, p.baseSalary)
    else if t !in reg then Err(ValueError(UnknownType(reg.Keys)))
    else Build(reg[t], p)
  }

  /** `register_factory`: the factory is stored under the lower-cased tag,
      replacing only what was stored under that tag. */
  function Register(reg: Registry, tag: string, f: Factory): (r: Registry)
    ensures Lower(tag) in r && r[Lower(tag)] == f
    ensures r.Keys == reg.Keys + {Lower(tag)}
    ensures forall k :: k in reg && k != Lower(tag) ==> r[k] == reg[k]
  {
    reg[Lower(tag) := f]
  }

  /** Two tags that differ only in letter case build the same thing. */
  lemma CaseInsensitive(reg: Registry, tag: string, p: Params)
    ensures Create(reg, tag, p) == Create(reg, Lower(tag), p)
  {
    LowerIdempotent(tag);
  }

  /** "Manager" and "manager" name the same factory. */
  lemma ManagerTagExample(reg: Registry, p: Params)
    ensures Create(reg, "Manager", p) == Create(reg, "manager", p)
  {
    CaseInsensitive(reg, "Manager", p);
    assert Lower("Manager") == "manager";
  }

  /** A registered factory is reached under any spelling of its tag, except
      that "employee" stays a plain employee whatever is registered. */
  lemma RegisteredTagBuilds(reg: Registry, tag: string, f: Factory, spelling: string, p: Params)
    requires Lower(spelling) == Lower(tag)
    ensures Lower(tag) != PlainTag ==> Create(Register(reg, tag, f), spelling, p) == Build(f, p)
    ensures Lower(tag) == PlainTag ==>
              Create(Register(reg, tag, f), spelling, p) == NewEmployee(p.id, p.name, p.department, p.baseSalary)
  {
  }

  /** Registering under one tag changes no other tag's result, apart from
      the list of known tags an unknown-tag error reports. */
  lemma RegisterLeavesOtherTags(reg: Registry, tag: string, f: Factory, other: string, p: Params)
    requires Lower(other) != Lower(tag)
    ensures Create(Register(reg, tag, f), other, p).Ok? <==> Create(reg, other, p).Ok?
    ensures Create(reg, other, p).Ok? ==> Create(Register(reg, tag, f), other, p) == Create(reg, other, p)
    ensures Create(reg, other, p).Err? && Create(reg, other, p).error.ValueError?
              && Create(reg, other, p).error.why.UnknownType? ==>
              Create(Register(reg, tag, f), other, p) == Err(ValueError(UnknownType(reg.Keys + {Lower(tag)})))
  {
  }

  /** A tag with no upper-case letter is its own lower-cased form. */
  lemma LowerOfLowercase(s: string)
    requires forall i :: 0 <= i < |s| ==> !('A' <= s[i] <= 'Z')
    ensures Lower(s) == s
  {
  }

  /** Every tag of the default registry, in any spelling, builds the
      variant its factory builds; "employee" is not among them. */
  lemma DefaultRegistryVariants(tag: string, p: Params)
    requires Lower(tag) in DefaultRegistry
    ensures Create(DefaultRegistry, tag, p) == Build(DefaultRegistry[Lower(tag)], p)
    ensures Create(DefaultRegistry, tag, p).Ok? ==>
              Builds(DefaultRegistry[Lower(tag)], Create(DefaultRegistry, tag, p).value)
  {
    assert PlainTag !in DefaultRegistry;
  }

  /** The tag "employee" itself builds a plain employee. */
  lemma PlainTagBuildsEmployee(reg: Registry, p: Params)
    ensures Create(reg, PlainTag, p) == NewEmployee(p.id, p.name, p.department, p.baseSalary)
  {
    PlainTagIsLower();
  }

  lemma PlainTagIsLower()
    ensures Lower(PlainTag) == PlainTag
  {
    var t := "employee";
    assert Lower(t) == t by {
      LowerOfLowercase(t);
    }
  }

  /** A tag the default registry does not know fails, naming the three. */
  lemma UnknownTagExample(p: Params)
    ensures Create(DefaultRegistry, "intern", p) ==
              Err(ValueError(UnknownType({"manager", "developer", "salesperson"})))
  {
    var t := "intern";
    assert Lower(t) == t by {
      LowerOfLowercase(t);
    }
    assert t != PlainTag && t !in DefaultRegistry;
    assert DefaultRegistry.Keys == {"manager", "developer", "salesperson"};
  }

  /** With only the inherited fields given, valid values build a zero-bonus
      manager, a junior developer with no skills, and a salesperson with no
      commission and no sales; each is paid exactly its base salary. */
  lemma DefaultsApplied(id: int, name: string, department: string, baseSalary: real)
    requires ValidId(id) && ValidName(name) && ValidBaseSalary(baseSalary)
    ensures var p := Params(id, name, department, baseSalary, None, None, None, None, None);
            && Build(ManagerFactory, p) == Ok(Manager(id, name, department, baseSalary, 0.0))
            && Build(DeveloperFactory, p) == Ok(Developer(id, name, department, baseSalary, [], Junior))
            && Build(SalespersonFactory, p) == Ok(Salesperson(id, name, department, baseSalary, 0.0, 0.0))
            && Salary(Build(ManagerFactory, p).value) == baseSalary
            && Salary(Build(DeveloperFactory, p).value) == baseSalary
            && Salary(Build(SalespersonFactory, p).value) == baseSalary
  {
    assert ParseLevel("junior") == Some(Junior);
  }
}
