/** The company: a name, the departments it aggregates and the projects it
    runs, with the cross-cutting queries over them.
 */
module Companies {
  import opened Outcomes
  import opened Text
  import opened Employees
  import opened Departments
  import opened Projects

  datatype Company = Company(name: string, departments: seq<Department>, projects: seq<Project>)

  function NewCompany(name: string): (r: Result<Company>)
    ensures r.Ok? <==> !IsBlank(name)
    ensures r.Ok? ==> r.value == Company(name, [], [])
    ensures r.Err? ==> r.error == ValueError(Invalid(CompanyNameField))
  {
    if IsBlank(name) then Err(ValueError(Invalid(CompanyNameField)))
    else Ok(Company(name, [], []))
  }

  function DepartmentHandles(ds: seq<Department>): (r: seq<nat>)
    ensures |r| == |ds|
    ensures forall i :: 0 <= i < |ds| ==> r[i] == ds[i].handle
  {
    seq(|ds|, i requires 0 <= i < |ds| => ds[i].handle)
  }

  function ProjectHandles(ps: seq<Project>): (r: seq<nat>)
    ensures |r| == |ps|
    ensures forall i :: 0 <= i < |ps| ==> r[i] == ps[i].handle
  {
    seq(|ps|, i requires 0 <= i < |ps| => ps[i].handle)
  }

  function ProjectIds(ps: seq<Project>): (r: seq<int>)
    ensures |r| == |ps|
    ensures forall i :: 0 <= i < |ps| ==> r[i] == ps[i].projectId
  {
    seq(|ps|, i requires 0 <= i < |ps| => ps[i].projectId)
  }

  predicate UniqueProjectIds(ps: seq<Project>) {
    forall i, j :: 0 <= i < j < |ps| ==> ps[i].projectId != ps[j].projectId
  }

  // ---------------------------------------------------------------------
  // Departments

  /** `_find_department_by_name`: the position of the first department with
      that name. */
  function DepartmentIndex(ds: seq<Department>, name: string): (k: Option<nat>)
    ensures k.None? <==> forall i :: 0 <= i < |ds| ==> ds[i].name != name
    ensures k.Some? ==> k.value < |ds| && ds[k.value].name == name
    ensures k.Some? ==> forall j :: 0 <= j < k.value ==> ds[j].name != name
    decreases |ds|
  {
    if |ds| == 0 then None
    else if ds[0].name == name then Some(0)
    else match DepartmentIndex(ds[1..], name)
      case None => None
      case Some(k) => Some(k + 1)
  }

  /** `add_department`: only the very same department object is refused;
      a different department with the same name is accepted. */
  function AddDepartment(c: Company, d: Department): (r: Result<Company>)
    ensures r.Ok? <==> d.handle !in DepartmentHandles(c.departments)
    ensures r.Ok? ==> r.value == c.(departments := c.departments + [d])
    ensures r.Err? ==> r.error == ValueError(DepartmentAlreadyAdded)
  {
    if d.handle in DepartmentHandles(c.departments) then Err(ValueError(DepartmentAlreadyAdded))
    else Ok(c.(departments := c.departments + [d]))
  }

  /** Two distinct departments sharing a name are both kept, and a lookup
      by that name finds the one added first. */
  lemma SameNameDepartments(c: Company, d1: Department, d2: Department)
    requires d1.handle != d2.handle && d1.name == d2.name
    requires d1.handle !in DepartmentHandles(c.departments)
    requires d2.handle !in DepartmentHandles(c.departments)
    requires DepartmentIndex(c.departments, d1.name).None?
    ensures AddDepartment(c, d1).Ok?
    ensures AddDepartment(AddDepartment(c, d1).value, d2).Ok?
    ensures var c2 := AddDepartment(AddDepartment(c, d1).value, d2).value;
            DepartmentIndex(c2.departments, d1.name) == Some(|c.departments|)
  {
    var c1 := AddDepartment(c, d1).value;
    assert DepartmentHandles(c1.departments) == DepartmentHandles(c.departments) + [d1.handle];
    var c2 := AddDepartment(c1, d2).value;
    var k := DepartmentIndex(c2.departments, d1.name);
    assert c2.departments[|c.departments|] == d1;
  }

  /** `remove_department`: an unknown name fails with DepartmentNotFound, a
      department that still has employees fails with a ValueError, and
      otherwise only the first department of that name is removed. */
  function RemoveDepartment(c: Company, name: string): (r: Result<Company>)
    ensures DepartmentIndex(c.departments, name).None? ==> r == Err(DepartmentNotFound)
    ensures DepartmentIndex(c.departments, name).Some? ==>
              var k := DepartmentIndex(c.departments, name).value;
              && (|c.departments[k].employees| > 0 ==> r == Err(ValueError(HasEmployees)))
              && (|c.departments[k].employees| == 0 ==>
                    r == Ok(c.(departments := c.departments[..k] + c.departments[k + 1..])))
  {
    match DepartmentIndex(c.departments, name)
    case None => Err(DepartmentNotFound)
    case Some(k) =>
      if |c.departments[k].employees| > 0 then Err(ValueError(HasEmployees))
      else Ok(c.(departments := c.departments[..k] + c.departments[k + 1..]))
  }

  // ---------------------------------------------------------------------
  // Projects

  /** `_find_project_by_id`: the position of the first project with that id. */
  function ProjectIndex(ps: seq<Project>, id: int): (k: Option<nat>)
    ensures k.None? <==> id !in ProjectIds(ps)
    ensures k.Some? ==> k.value < |ps| && ps[k.value].projectId == id
    ensures k.Some? ==> forall j :: 0 <= j < k.value ==> ps[j].projectId != id
    decreases |ps|
  {
    if |ps| == 0 then None
    else if ps[0].projectId == id then Some(0)
    else
      assert ProjectIds(ps) == [ps[0].projectId] + ProjectIds(ps[1..]);
      match ProjectIndex(ps[1..], id)
      case None => None
      case Some(k) =>
        ProjectAfterHead(ps, id, k);
        Some(k + 1)
  }

  lemma ProjectAfterHead(ps: seq<Project>, id: int, k: nat)
    requires |ps| > 0 && ps[0].projectId != id && k < |ps| - 1
    requires forall j :: 0 <= j < k ==> ps[1..][j].projectId != id
    ensures forall j :: 0 <= j < k + 1 ==> ps[j].projectId != id
  {
    forall j | 0 < j < k + 1
      ensures ps[j].projectId != id
    {
      assert ps[j] == ps[1..][j - 1];
    }
  }

  /** `add_project`: the very same project object is refused with a
      ValueError, then a repeated project id with DuplicateId. */
  function AddProject(c: Company, p: Project): (r: Result<Company>)
    ensures r.Ok? <==> p.handle !in ProjectHandles(c.projects) && p.projectId !in ProjectIds(c.projects)
    ensures r.Ok? ==> r.value == c.(projects := c.projects + [p])
    ensures p.handle in ProjectHandles(c.projects) ==> r == Err(ValueError(ProjectAlreadyAdded))
    ensures p.handle !in ProjectHandles(c.projects) && p.projectId in ProjectIds(c.projects) ==>
              r == Err(DuplicateId)
    ensures r.Ok? && UniqueProjectIds(c.projects) ==> UniqueProjectIds(r.value.projects)
  {
    if p.handle in ProjectHandles(c.projects) then Err(ValueError(ProjectAlreadyAdded))
    else if p.projectId in ProjectIds(c.projects) then Err(DuplicateId)
    else Ok(c.(projects := c.projects + [p]))
  }

  /** `remove_project`: an unknown id fails with ProjectNotFound, a project
      with a team fails with a ValueError, and otherwise that project alone
      is removed. */
  function RemoveProject(c: Company, id: int): (r: Result<Company>)
    ensures ProjectIndex(c.projects, id).None? ==> r == Err(ProjectNotFound)
    ensures ProjectIndex(c.projects, id).Some? ==>
              var k := ProjectIndex(c.projects, id).value;
              && (|c.projects[k].team| > 0 ==> r == Err(ValueError(HasTeam)))
              && (|c.projects[k].team| == 0 ==>
                    r == Ok(c.(projects := c.projects[..k] + c.projects[k + 1..])))
  {
    match ProjectIndex(c.projects, id)
    case None => Err(ProjectNotFound)
    case Some(k) =>
      if |c.projects[k].team| > 0 then Err(ValueError(HasTeam))
      else Ok(c.(projects := c.projects[..k] + c.projects[k + 1..]))
  }

  /** With unique project ids, a removed project's id is gone afterwards. */
  lemma {:induction false} RemovedProjectIsGone(c: Company, id: int)
    requires UniqueProjectIds(c.projects)
    requires RemoveProject(c, id).Ok?
    ensures id !in ProjectIds(RemoveProject(c, id).value.projects)
    ensures |RemoveProject(c, id).value.projects| == |c.projects| - 1
  {
    var k := ProjectIndex(c.projects, id).value;
    assert RemoveProject(c, id).value.projects == c.projects[..k] + c.projects[k + 1..];
    DropUniqueId(c.projects, k);
  }

  lemma DropUniqueId(ps: seq<Project>, k: nat)
    requires k < |ps| && UniqueProjectIds(ps)
    ensures ps[k].projectId !in ProjectIds(ps[..k] + ps[k + 1..])
  {
    var rest := ps[..k] + ps[k + 1..];
    var ids := ProjectIds(rest);
    forall i | 0 <= i < |rest| ensures ids[i] != ps[k].projectId {
      if i < k {
        assert rest[i] == ps[i];
      } else {
        assert rest[i] == ps[i + 1];
      }
    }
  }

  /** `get_projects_by_status`: the projects with that status, in order. An
      unknown status name simply matches nothing. */
  function ProjectsByStatus(ps: seq<Project>, status: string): (r: seq<Project>)
    ensures forall i :: 0 <= i < |r| ==> r[i] in ps && StatusName(r[i].status) == status
    ensures forall i :: 0 <= i < |ps| && StatusName(ps[i].status) == status ==> ps[i] in r
    ensures status !in LegalStatuses ==> r == []
    decreases |ps|
  {
    if |ps| == 0 then []
    else (if StatusName(ps[0].status) == status then [ps[0]] else []) + ProjectsByStatus(ps[1..], status)
  }

  // ---------------------------------------------------------------------
  // Employees across departments

  /** `get_all_employees`: every department's members, department by
      department. */
  function AllEmployees(ds: seq<Department>): seq<Employee>
    decreases |ds|
  {
    if |ds| == 0 then [] else ds[0].employees + AllEmployees(ds[1..])
  }

  /** `e` stands in `es` before any other employee with id `id`. */
  predicate FirstWithId(es: seq<Employee>, id: int, e: Employee) {
    exists k :: 0 <= k < |es| && es[k] == e && forall j :: 0 <= j < k ==> es[j].id != id
  }

  /** `find_employee_by_id`: asks each department in turn, so the answer is
      the first employee with that id in company order. */
  function FindEmployee(ds: seq<Department>, id: int): (r: Option<Employee>)
    ensures r.None? <==> id !in Ids(AllEmployees(ds))
    ensures r.Some? ==> r.value in AllEmployees(ds) && r.value.id == id
    ensures r.Some? ==> FirstWithId(AllEmployees(ds), id, r.value)
    decreases |ds|
  {
    if |ds| == 0 then None
    else
      assert Ids(AllEmployees(ds)) == Ids(ds[0].employees) + Ids(AllEmployees(ds[1..]));
      match Departments.FindEmployee(ds[0], id)
      case Some(e) =>
        FirstInFront(ds[0].employees, AllEmployees(ds[1..]), id, e);
        Some(e)
      case None =>
        var later := FindEmployee(ds[1..], id);
        if later.Some? then FirstBehind(ds[0].employees, AllEmployees(ds[1..]), id, later.value); later
        else later
  }

  lemma FirstInFront(a: seq<Employee>, b: seq<Employee>, id: int, e: Employee)
    requires FirstWithId(a, id, e)
    ensures FirstWithId(a + b, id, e)
  {
    var k :| 0 <= k < |a| && a[k] == e && forall j :: 0 <= j < k ==> a[j].id != id;
    assert (a + b)[k] == e;
    assert forall j :: 0 <= j < k ==> (a + b)[j] == a[j];
  }

  lemma FirstBehind(a: seq<Employee>, b: seq<Employee>, id: int, e: Employee)
    requires id !in Ids(a)
    requires FirstWithId(b, id, e)
    ensures FirstWithId(a + b, id, e)
  {
    var k :| 0 <= k < |b| && b[k] == e && forall j :: 0 <= j < k ==> b[j].id != id;
    var n := |a|;
    assert (a + b)[n + k] == e;
    forall j | 0 <= j < n + k
      ensures (a + b)[j].id != id
    {
      if j < n {
        assert Ids(a)[j] == a[j].id;
      } else {
        assert (a + b)[j] == b[j - n];
      }
    }
  }

  /** `calculate_total_monthly_cost`: the departments' totals added up. */
  function MonthlyCost(ds: seq<Department>): real
    decreases |ds|
  {
    if |ds| == 0 then 0.0 else DepartmentSalary(ds[0]) + MonthlyCost(ds[1..])
  }

  /** The monthly cost is the salary total over the flattened employee list. */
  lemma {:induction false} MonthlyCostIsTotalSalary(ds: seq<Department>)
    ensures MonthlyCost(ds) == TotalSalary(AllEmployees(ds))
    decreases |ds|
  {
    if |ds| > 0 {
      MonthlyCostIsTotalSalary(ds[1..]);
      TotalSalaryAppend(ds[0].employees, AllEmployees(ds[1..]));
    }
  }

  /** Replacing one department changes the flattened list only by that
      department's members. */
  lemma {:induction false} HeadCountUpdate(ds: seq<Department>, k: nat, d: Department)
    requires k < |ds|
    ensures |AllEmployees(ds[k := d])| == |AllEmployees(ds)| - |ds[k].employees| + |d.employees|
    decreases |ds|
  {
    if k > 0 {
      assert ds[k := d][1..] == ds[1..][k - 1 := d];
      HeadCountUpdate(ds[1..], k - 1, d);
    } else {
      assert ds[k := d][1..] == ds[1..];
    }
  }

  // ---------------------------------------------------------------------
  // Transfer and assignment

  /** The state a call leaves behind and the error it raised, if any: for
      operations that may fail after they have already changed something. */
  datatype Outcome = Outcome(state: Company, error: Option<Error>)

  /** `transfer_employee`: looks up the source department, then the target,
      then the employee in the source; then removes the employee from the
      source and adds it to the target. The removal is not undone when the
      add fails. */
  function Transfer(c: Company, id: int, from: string, to: string): (o: Outcome)
    ensures DepartmentIndex(c.departments, from).None? ==> o == Outcome(c, Some(DepartmentNotFound))
    ensures DepartmentIndex(c.departments, from).Some? && DepartmentIndex(c.departments, to).None? ==>
              o == Outcome(c, Some(DepartmentNotFound))
    ensures DepartmentIndex(c.departments, from).Some? && DepartmentIndex(c.departments, to).Some? &&
            id !in Ids(c.departments[DepartmentIndex(c.departments, from).value].employees) ==>
              o == Outcome(c, Some(EmployeeNotFound))
    ensures o.error.None? ==> |AllEmployees(o.state.departments)| == |AllEmployees(c.departments)|
    ensures o.error.Some? && o.state != c ==>
              && o.error == Some(ValueError(AlreadyMember))
              && |AllEmployees(o.state.departments)| == |AllEmployees(c.departments)| - 1
    ensures o.state.name == c.name && o.state.projects == c.projects
    ensures |o.state.departments| == |c.departments|
  {
    match DepartmentIndex(c.departments, from)
    case None => Outcome(c, Some(DepartmentNotFound))
    case Some(s) =>
      match DepartmentIndex(c.departments, to)
      case None => Outcome(c, Some(DepartmentNotFound))
      case Some(t) =>
        match Departments.FindEmployee(c.departments[s], id)
        case None => Outcome(c, Some(EmployeeNotFound))
        case Some(e) =>
          var source := RemoveEmployee(c.departments[s], id).value;
          var ds1 := c.departments[s := source];
          HeadCountUpdate(c.departments, s, source);
          match AddEmployee(ds1[t], e)
          case Err(err) => Outcome(c.(departments := ds1), Some(err))
          case Ok(target) =>
            HeadCountUpdate(ds1, t, target);
            Outcome(c.(departments := ds1[t := target]), None)
  }

  /** Between two different departments, a transfer of a member of the
      source whose id the target lacks succeeds: it takes the employee out of
      the source and appends it to the target; nothing else changes. */
  lemma {:induction false} TransferMoves(c: Company, id: int, from: string, to: string)
    requires DepartmentIndex(c.departments, from).Some? && DepartmentIndex(c.departments, to).Some?
    requires DepartmentIndex(c.departments, from) != DepartmentIndex(c.departments, to)
    requires UniqueIds(c.departments[DepartmentIndex(c.departments, from).value].employees)
    requires id in Ids(c.departments[DepartmentIndex(c.departments, from).value].employees)
    requires id !in Ids(c.departments[DepartmentIndex(c.departments, to).value].employees)
    ensures Transfer(c, id, from, to).error.None?
    ensures var s, t := DepartmentIndex(c.departments, from).value, DepartmentIndex(c.departments, to).value;
            var e := Departments.FindEmployee(c.departments[s], id).value;
            var ds' := Transfer(c, id, from, to).state.departments;
            && ds'[s] == RemoveEmployee(c.departments[s], id).value
            && id !in Ids(ds'[s].employees)
            && ds'[t] == c.departments[t].(employees := c.departments[t].employees + [e])
            && forall k :: 0 <= k < |ds'| && k != s && k != t ==> ds'[k] == c.departments[k]
  {
  }

  /** Transfer is not atomic: when the target already has an employee with
      that id, the call fails but the employee has already left the source. */
  lemma TransferNotAtomic(c: Company, id: int, from: string, to: string)
    requires DepartmentIndex(c.departments, from).Some? && DepartmentIndex(c.departments, to).Some?
    requires DepartmentIndex(c.departments, from) != DepartmentIndex(c.departments, to)
    requires id in Ids(c.departments[DepartmentIndex(c.departments, from).value].employees)
    requires id in Ids(c.departments[DepartmentIndex(c.departments, to).value].employees)
    requires UniqueIds(c.departments[DepartmentIndex(c.departments, from).value].employees)
    ensures Transfer(c, id, from, to).error == Some(ValueError(AlreadyMember))
    ensures var s := DepartmentIndex(c.departments, from).value;
            id !in Ids(Transfer(c, id, from, to).state.departments[s].employees)
    ensures |AllEmployees(Transfer(c, id, from, to).state.departments)| == |AllEmployees(c.departments)| - 1
  {
    var s, t := DepartmentIndex(c.departments, from).value, DepartmentIndex(c.departments, to).value;
    var source := RemoveEmployee(c.departments[s], id).value;
    assert c.departments[s := source][t] == c.departments[t];
  }

  /** `assign_employee_to_project`: the employee is looked up company-wide
      first (EmployeeNotFound), then the project (ProjectNotFound), then the
      employee joins the team (ValueError if already on it). */
  function Assign(c: Company, employeeId: int, projectId: int): (r: Result<Company>)
    ensures FindEmployee(c.departments, employeeId).None? ==> r == Err(EmployeeNotFound)
    ensures FindEmployee(c.departments, employeeId).Some? && ProjectIndex(c.projects, projectId).None? ==>
              r == Err(ProjectNotFound)
    ensures FindEmployee(c.departments, employeeId).Some? && ProjectIndex(c.projects, projectId).Some? ==>
              var k := ProjectIndex(c.projects, projectId).value;
              && (employeeId in Ids(c.projects[k].team) ==> r == Err(ValueError(AlreadyMember)))
              && (employeeId !in Ids(c.projects[k].team) ==>
                    r == Ok(c.(projects := c.projects[k := c.projects[k].(team := c.projects[k].team
                                                      + [FindEmployee(c.departments, employeeId).value])])))
  {
    match FindEmployee(c.departments, employeeId)
    case None => Err(EmployeeNotFound)
    case Some(e) =>
      match ProjectIndex(c.projects, projectId)
      case None => Err(ProjectNotFound)
      case Some(k) =>
        var p :- AddTeamMember(c.projects[k], e);
        Ok(c.(projects := c.projects[k := p]))
  }

  // ---------------------------------------------------------------------
  // Overload and availability

  /** Every team's member ids, project by project. */
  function TeamIds(ps: seq<Project>): seq<int>
    decreases |ps|
  {
    if |ps| == 0 then [] else Ids(ps[0].team) + TeamIds(ps[1..])
  }

  /** An id sits on more than one team slot across all projects. */
  predicate Overloaded(c: Company, id: int) {
    multiset(TeamIds(c.projects))[id] > 1
  }

  /** How many projects have a team member with this id. */
  function ProjectsWith(ps: seq<Project>, id: int): (n: nat)
    ensures n <= |ps|
    decreases |ps|
  {
    if |ps| == 0 then 0
    else (if FindTeamMember(ps[0], id).Some? then 1 else 0) + ProjectsWith(ps[1..], id)
  }

  /** `check_employee_availability`: on fewer than two teams. */
  predicate Available(c: Company, id: int) {
    ProjectsWith(c.projects, id) < 2
  }

  lemma UniqueIdsCount(es: seq<Employee>, id: int)
    requires UniqueIds(es)
    ensures multiset(Ids(es))[id] == if id in Ids(es) then 1 else 0
    decreases |es|
  {
    if |es| > 0 {
      assert Ids(es) == [es[0].id] + Ids(es[1..]);
      UniqueIdsCount(es[1..], id);
      if es[0].id == id {
        assert id !in Ids(es[1..]);
      }
    }
  }

  /** With duplicate-free teams, an id's slot count is the number of teams
      it is on. */
  lemma {:induction false} SlotsAreProjects(ps: seq<Project>, id: int)
    requires forall i :: 0 <= i < |ps| ==> UniqueIds(ps[i].team)
    ensures multiset(TeamIds(ps))[id] == ProjectsWith(ps, id)
    decreases |ps|
  {
    if |ps| > 0 {
      SlotsAreProjects(ps[1..], id);
      UniqueIdsCount(ps[0].team, id);
    }
  }

  /** Overloaded exactly when not available, as long as no team lists the
      same id twice (which `add_team_member` guarantees). */
  lemma OverloadedIffUnavailable(c: Company, id: int)
    requires forall i :: 0 <= i < |c.projects| ==> UniqueIds(c.projects[i].team)
    ensures Overloaded(c, id) <==> !Available(c, id)
  {
    SlotsAreProjects(c.projects, id);
  }

  /** The position of the first occurrence of `x`. */
  function FirstIndex(xs: seq<int>, x: int): (k: nat)
    requires x in xs
    ensures k < |xs| && xs[k] == x
    ensures forall j :: 0 <= j < k ==> xs[j] != x
  {
    if xs[0] == x then 0 else 1 + FirstIndex(xs[1..], x)
  }

  lemma FirstIndexPrefix(xs: seq<int>, i: nat, x: int)
    requires i <= |xs| && x in xs[..i]
    ensures x in xs && FirstIndex(xs, x) < i
  {
    var j :| 0 <= j < i && xs[..i][j] == x;
    assert xs[j] == x;
  }

  /** The first half of `find_overloaded_employees`: how often each id
      occurs, and the distinct ids in order of first appearance. */
  method CountIds(ids: seq<int>) returns (counts: map<int, nat>, order: seq<int>)
    ensures forall x :: x in counts <==> x in ids
    ensures forall x :: x in counts ==> counts[x] == multiset(ids)[x]
    ensures forall x :: x in order <==> x in ids
    ensures forall a :: 0 <= a < |order| ==> order[a] in counts && order[a] in ids
    ensures forall a, b :: 0 <= a < b < |order| ==>
              order[a] in ids && order[b] in ids && FirstIndex(ids, order[a]) < FirstIndex(ids, order[b])
  {
    counts, order := Tally(ids);
    CountComplete(ids, counts, order);
  }

  /** The loop of `CountIds`, stated through its invariants. */
  method Tally(ids: seq<int>) returns (counts: map<int, nat>, order: seq<int>)
    ensures CountsUpTo(ids, |ids|, counts) && OrderUpTo(ids, |ids|, order)
  {
    counts := map[];
    order := [];
    var i := 0;
    while i < |ids|
      invariant 0 <= i <= |ids|
      invariant CountsUpTo(ids, i, counts)
      invariant OrderUpTo(ids, i, order)
    {
      counts, order := TallyStep(ids, i, counts, order);
      i := i + 1;
    }
  }

  /** One id more: its count goes up by one, and a first occurrence joins
      the order. */
  method TallyStep(ids: seq<int>, i: nat, counts: map<int, nat>, order: seq<int>)
    returns (counts': map<int, nat>, order': seq<int>)
    requires i < |ids| && CountsUpTo(ids, i, counts) && OrderUpTo(ids, i, order)
    ensures CountsUpTo(ids, i + 1, counts') && OrderUpTo(ids, i + 1, order')
  {
    var x := ids[i];
    CountsStep(ids, i, counts);
    OrderStep(ids, i, order);
    if x in counts {
      counts' := counts[x := counts[x] + 1];
      order' := order;
    } else {
      counts' := counts[x := 1];
      order' := order + [x];
    }
  }

  lemma CountComplete(ids: seq<int>, counts: map<int, nat>, order: seq<int>)
    requires CountsUpTo(ids, |ids|, counts) && OrderUpTo(ids, |ids|, order)
    ensures forall x :: x in counts <==> x in ids
    ensures forall x :: x in counts ==> counts[x] == multiset(ids)[x]
    ensures forall x :: x in order <==> x in ids
    ensures forall a :: 0 <= a < |order| ==> order[a] in counts && order[a] in ids
    ensures forall a, b :: 0 <= a < b < |order| ==>
              order[a] in ids && order[b] in ids && FirstIndex(ids, order[a]) < FirstIndex(ids, order[b])
  {
    assert ids[..|ids|] == ids;
  }

  /** `counts` tallies the first `i` ids. */
  ghost predicate CountsUpTo(ids: seq<int>, i: nat, counts: map<int, nat>)
    requires i <= |ids|
  {
    && (forall x :: x in counts <==> x in ids[..i])
    && (forall x :: x in counts ==> counts[x] == multiset(ids[..i])[x])
  }

  /** `order` lists the distinct ids among the first `i`, in order of first
      appearance. */
  ghost predicate OrderUpTo(ids: seq<int>, i: nat, order: seq<int>)
    requires i <= |ids|
  {
    && (forall x :: x in order <==> x in ids[..i])
    && (forall a :: 0 <= a < |order| ==> order[a] in ids && FirstIndex(ids, order[a]) < i)
    && (forall a, b :: 0 <= a < b < |order| ==>
          order[a] in ids && order[b] in ids && FirstIndex(ids, order[a]) < FirstIndex(ids, order[b]))
  }

  lemma CountsStep(ids: seq<int>, i: nat, counts: map<int, nat>)
    requires i < |ids| && CountsUpTo(ids, i, counts)
    ensures ids[i] in counts <==> ids[i] in ids[..i]
    ensures CountsUpTo(ids, i + 1, counts[ids[i] := if ids[i] in counts then counts[ids[i]] + 1 else 1])
  {
    var x := ids[i];
    assert x in counts <==> x in ids[..i];
    assert ids[..i + 1] == ids[..i] + [x];
  }

  lemma OrderStep(ids: seq<int>, i: nat, order: seq<int>)
    requires i < |ids| && OrderUpTo(ids, i, order)
    ensures OrderUpTo(ids, i + 1, if ids[i] in ids[..i] then order else order + [ids[i]])
  {
    assert ids[..i + 1] == ids[..i] + [ids[i]];
    if ids[i] !in ids[..i] {
      OrderStepFresh(ids, i, order);
    }
  }

  lemma OrderStepFresh(ids: seq<int>, i: nat, order: seq<int>)
    requires i < |ids| && OrderUpTo(ids, i, order) && ids[i] !in ids[..i]
    ensures OrderUpTo(ids, i + 1, order + [ids[i]])
  {
    var x := ids[i];
    var o := order + [x];
    assert ids[..i + 1] == ids[..i] + [x];
    FirstIndexFresh(ids, i);
    assert forall a :: 0 <= a < |o| ==> o[a] in ids && FirstIndex(ids, o[a]) < i + 1;
  }

  lemma FirstIndexFresh(ids: seq<int>, i: nat)
    requires i < |ids| && ids[i] !in ids[..i]
    ensures FirstIndex(ids, ids[i]) == i
  {
    forall j | 0 <= j < i ensures ids[j] != ids[i] {
      assert ids[j] == ids[..i][j];
    }
  }

  /** The second half of `find_overloaded_employees`: walking the counted
      ids in order, keeps the looked-up employee of every id counted more
      than once; `found[a]` is the lookup result for `order[a]`. */
  method PickRepeated(counts: map<int, nat>, order: seq<int>, found: seq<Option<Employee>>)
    returns (r: seq<Employee>, ghost picked: seq<nat>)
    requires |found| == |order|
    requires forall a :: 0 <= a < |order| ==> order[a] in counts
    ensures |picked| == |r|
    ensures forall i :: 0 <= i < |r| ==>
              picked[i] < |order| && counts[order[picked[i]]] > 1 && found[picked[i]] == Some(r[i])
    ensures forall i, j :: 0 <= i < j < |r| ==> picked[i] < picked[j]
    ensures forall a :: 0 <= a < |order| && counts[order[a]] > 1 && found[a].Some? ==> found[a].value in r
  {
    r := [];
    picked := [];
    var k := 0;
    while k < |order|
      invariant 0 <= k <= |order|
      invariant |picked| == |r|
      invariant forall i :: 0 <= i < |r| ==>
                  picked[i] < k && counts[order[picked[i]]] > 1 && found[picked[i]] == Some(r[i])
      invariant forall i, j :: 0 <= i < j < |r| ==> picked[i] < picked[j]
      invariant forall a :: 0 <= a < k && counts[order[a]] > 1 && found[a].Some? ==> found[a].value in r
    {
      if counts[order[k]] > 1 {
        match found[k]
        case Some(e) =>
          r := r + [e];
          picked := picked + [k];
        case None =>
      }
      k := k + 1;
    }
  }

  /** Picking from `order` at increasing positions keeps first-appearance
      order. */
  lemma PickedInOrder(ids: seq<int>, order: seq<int>, picked: seq<nat>, r: seq<Employee>)
    requires forall a :: 0 <= a < |order| ==> order[a] in ids
    requires forall a, b :: 0 <= a < b < |order| ==> FirstIndex(ids, order[a]) < FirstIndex(ids, order[b])
    requires |picked| == |r|
    requires forall i :: 0 <= i < |r| ==> picked[i] < |order| && order[picked[i]] == r[i].id
    requires forall i, j :: 0 <= i < j < |r| ==> picked[i] < picked[j]
    ensures forall i :: 0 <= i < |r| ==> r[i].id in ids
    ensures forall i, j :: 0 <= i < j < |r| ==> FirstIndex(ids, r[i].id) < FirstIndex(ids, r[j].id)
  {
    forall i, j | 0 <= i < j < |r| ensures FirstIndex(ids, r[i].id) < FirstIndex(ids, r[j].id) {
      var a, b := picked[i], picked[j];
      assert FirstIndex(ids, order[a]) < FirstIndex(ids, order[b]);
    }
  }

  /** `find_overloaded_employees`: counts each id over all teams, in order of
      first appearance, then returns, for every id counted more than once,
      the employee a company-wide lookup finds, skipping ids no department
      holds. */
  method FindOverloaded(c: Company) returns (r: seq<Employee>)
    ensures forall i :: 0 <= i < |r| ==>
              Overloaded(c, r[i].id) && FindEmployee(c.departments, r[i].id) == Some(r[i])
    ensures forall id :: Overloaded(c, id) && FindEmployee(c.departments, id).Some? ==>
              FindEmployee(c.departments, id).value in r
    ensures forall i :: 0 <= i < |r| ==> r[i].id in TeamIds(c.projects)
    ensures forall i, j :: 0 <= i < j < |r| ==>
              FirstIndex(TeamIds(c.projects), r[i].id) < FirstIndex(TeamIds(c.projects), r[j].id)
  {
    var ids := TeamIds(c.projects);
    var counts, order := CountIds(ids);
    var found := seq(|order|, a requires 0 <= a < |order| => FindEmployee(c.departments, order[a]));
    ghost var picked;
    r, picked := PickRepeated(counts, order, found);
    forall i | 0 <= i < |r| ensures order[picked[i]] == r[i].id {
      assert found[picked[i]] == FindEmployee(c.departments, order[picked[i]]);
    }
    PickedInOrder(ids, order, picked, r);
    forall id | Overloaded(c, id) && FindEmployee(c.departments, id).Some?
      ensures FindEmployee(c.departments, id).value in r
    {
      assert id in ids;
      var a :| 0 <= a < |order| && order[a] == id;
      assert found[a] == FindEmployee(c.departments, id);
    }
  }

  // ---------------------------------------------------------------------
  // Statistics

  datatype DepartmentStats = DepartmentStats(employeeCount: nat, totalSalary: real, employeeTypes: map<string, nat>)

  function StatsOf(d: Department): DepartmentStats {
    DepartmentStats(Size(d), DepartmentSalary(d), TypeCounts(d.employees))
  }

  /** Some department has this name. */
  predicate NameTaken(ds: seq<Department>, n: string) {
    exists i :: 0 <= i < |ds| && ds[i].name == n
  }

  lemma NameTakenSnoc(ds: seq<Department>, n: string)
    requires |ds| > 0
    ensures NameTaken(ds, n) <==> NameTaken(ds[..|ds| - 1], n) || ds[|ds| - 1].name == n
  {
    var init := ds[..|ds| - 1];
    if NameTaken(ds, n) && ds[|ds| - 1].name != n {
      var i :| 0 <= i < |ds| && ds[i].name == n;
      assert init[i] == ds[i];
    }
    if NameTaken(init, n) {
      var i :| 0 <= i < |init| && init[i].name == n;
      assert ds[i] == init[i];
    }
  }

  /** Adding the last department's entry keeps the keys exactly the names
      taken. */
  lemma StatsKeysSnoc(ds: seq<Department>, prev: map<string, DepartmentStats>)
    requires |ds| > 0
    requires forall n :: n in prev <==> NameTaken(ds[..|ds| - 1], n)
    ensures forall n :: n in prev[ds[|ds| - 1].name := StatsOf(ds[|ds| - 1])] <==> NameTaken(ds, n)
  {
    forall n ensures n in prev[ds[|ds| - 1].name := StatsOf(ds[|ds| - 1])] <==> NameTaken(ds, n) {
      NameTakenSnoc(ds, n);
    }
  }

  /** Adding the last department's entry keeps every name's last
      department's statistics. */
  lemma {:induction false} StatsEntriesSnoc(ds: seq<Department>, prev: map<string, DepartmentStats>)
    requires |ds| > 0
    requires forall i :: 0 <= i < |ds| - 1 && (forall j :: i < j < |ds| - 1 ==> ds[j].name != ds[i].name) ==>
               ds[i].name in prev && prev[ds[i].name] == StatsOf(ds[i])
    ensures var m := prev[ds[|ds| - 1].name := StatsOf(ds[|ds| - 1])];
            forall i :: 0 <= i < |ds| && (forall j :: i < j < |ds| ==> ds[j].name != ds[i].name) ==>
              ds[i].name in m && m[ds[i].name] == StatsOf(ds[i])
  {
  }

  /** `get_department_stats`: keyed by department name; when two departments
      share a name, the later one's entry wins. */
  function DepartmentStatsMap(ds: seq<Department>): (m: map<string, DepartmentStats>)
    ensures forall n :: n in m <==> NameTaken(ds, n)
    ensures forall i :: 0 <= i < |ds| && (forall j :: i < j < |ds| ==> ds[j].name != ds[i].name) ==>
              ds[i].name in m && m[ds[i].name] == StatsOf(ds[i])
    decreases |ds|
  {
    if |ds| == 0 then map[]
    else
      var init := ds[..|ds| - 1];
      var prev := DepartmentStatsMap(init);
      assert forall i :: 0 <= i < |ds| - 1 ==> init[i] == ds[i];
      StatsKeysSnoc(ds, prev);
      StatsEntriesSnoc(ds, prev);
      prev[ds[|ds| - 1].name := StatsOf(ds[|ds| - 1])]
  }

  datatype Bucket = Bucket(count: nat, totalBudget: real)

  datatype BudgetAnalysis = BudgetAnalysis(totalProjects: nat, byStatus: map<string, Bucket>, totalBudget: real)

  /** How many projects have this status. */
  function CountWithStatus(ps: seq<Project>, s: string): (n: nat)
    ensures n <= |ps|
    decreases |ps|
  {
    if |ps| == 0 then 0
    else CountWithStatus(ps[..|ps| - 1], s) + (if StatusName(ps[|ps| - 1].status) == s then 1 else 0)
  }

  /** The team budgets of the projects with this status. */
  function BudgetWithStatus(ps: seq<Project>, s: string): real
    decreases |ps|
  {
    if |ps| == 0 then 0.0
    else BudgetWithStatus(ps[..|ps| - 1], s) + (if StatusName(ps[|ps| - 1].status) == s then TeamSalary(ps[|ps| - 1]) else 0.0)
  }

  /** The team budgets of all projects. */
  function TotalBudget(ps: seq<Project>): real
    decreases |ps|
  {
    if |ps| == 0 then 0.0 else TotalBudget(ps[..|ps| - 1]) + TeamSalary(ps[|ps| - 1])
  }

  /** Some project has this status. */
  predicate StatusTaken(ps: seq<Project>, s: string) {
    exists i :: 0 <= i < |ps| && StatusName(ps[i].status) == s
  }

  lemma StatusTakenSnoc(ps: seq<Project>, s: string)
    requires |ps| > 0
    ensures StatusTaken(ps, s) <==> StatusTaken(ps[..|ps| - 1], s) || StatusName(ps[|ps| - 1].status) == s
  {
    var init := ps[..|ps| - 1];
    if StatusTaken(ps, s) && StatusName(ps[|ps| - 1].status) != s {
      var i :| 0 <= i < |ps| && StatusName(ps[i].status) == s;
      assert init[i] == ps[i];
    }
    if StatusTaken(init, s) {
      var i :| 0 <= i < |init| && StatusName(init[i].status) == s;
      assert ps[i] == init[i];
    }
  }

  /** `get_project_budget_analysis`: one bucket per status that occurs,
      holding how many projects have it and their summed team budgets, plus
      the grand totals. */
  function Analyse(ps: seq<Project>): (a: BudgetAnalysis)
    ensures a.totalProjects == |ps|
    ensures a.totalBudget == TotalBudget(ps)
    ensures forall s :: s in a.byStatus <==> StatusTaken(ps, s)
    ensures forall s :: s in a.byStatus ==>
              a.byStatus[s] == Bucket(CountWithStatus(ps, s), BudgetWithStatus(ps, s))
    ensures forall s :: s !in a.byStatus ==> CountWithStatus(ps, s) == 0 && BudgetWithStatus(ps, s) == 0.0
    decreases |ps|
  {
    if |ps| == 0 then BudgetAnalysis(0, map[], 0.0)
    else
      var init := ps[..|ps| - 1];
      var p := ps[|ps| - 1];
      var a := Analyse(init);
      var s := StatusName(p.status);
      var before := if s in a.byStatus then a.byStatus[s] else Bucket(0, 0.0);
      var m := a.byStatus[s := Bucket(before.count + 1, before.totalBudget + TeamSalary(p))];
      assert forall u :: u in m <==> StatusTaken(ps, u) by {
        forall u ensures u in m <==> StatusTaken(ps, u) {
          StatusTakenSnoc(ps, u);
        }
      }
      BudgetAnalysis(|ps|, m, a.totalBudget + TeamSalary(p))
  }

  /** The per-status counts add up to the number of projects, and the
      per-status budgets to the total budget. */
  lemma {:induction false} BucketsAddUp(ps: seq<Project>)
    ensures CountWithStatus(ps, "planning") + CountWithStatus(ps, "active")
            + CountWithStatus(ps, "completed") + CountWithStatus(ps, "cancelled") == |ps|
    ensures BudgetWithStatus(ps, "planning") + BudgetWithStatus(ps, "active")
            + BudgetWithStatus(ps, "completed") + BudgetWithStatus(ps, "cancelled") == TotalBudget(ps)
    decreases |ps|
  {
    if |ps| > 0 {
      BucketsAddUp(ps[..|ps| - 1]);
    }
  }
}
