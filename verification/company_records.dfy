/** Saving a company as one nested record and loading it back, and the two
    CSV reports. A loaded department or project is a new object, so it gets
    a new handle: its position in the company's list.
 */
module CompanyRecords {
  import opened Outcomes
  import opened Text
  import opened Employees
  import opened Departments
  import opened Projects
  import opened Companies
  import Dates

  /** The dictionary `save_to_json` writes; both lists may be missing. */
  datatype CompanyRecord = CompanyRecord(
    name: string,
    departments: Option<seq<DepartmentRecord>>,
    projects: Option<seq<ProjectRecord>>)

  /** What every company built through the public operations satisfies. */
  predicate ValidCompany(c: Company) {
    && !IsBlank(c.name)
    && (forall i :: 0 <= i < |c.departments| ==> ValidDepartment(c.departments[i]))
    && (forall j :: 0 <= j < |c.projects| ==> ValidProject(c.projects[j]))
    && UniqueProjectIds(c.projects)
  }

  // ---------------------------------------------------------------------
  // Saving

  function DepartmentsToRecords(ds: seq<Department>): (rs: seq<DepartmentRecord>)
    ensures |rs| == |ds|
    ensures forall i :: 0 <= i < |ds| ==> rs[i] == DepartmentToRecord(ds[i])
    decreases |ds|
  {
    if |ds| == 0 then [] else [DepartmentToRecord(ds[0])] + DepartmentsToRecords(ds[1..])
  }

  function ProjectsToRecords(ps: seq<Project>): (rs: seq<ProjectRecord>)
    requires forall j :: 0 <= j < |ps| ==> Dates.Valid(ps[j].deadline)
    ensures |rs| == |ps|
    ensures forall j :: 0 <= j < |ps| ==> rs[j] == ProjectToRecord(ps[j])
    decreases |ps|
  {
    if |ps| == 0 then [] else [ProjectToRecord(ps[0])] + ProjectsToRecords(ps[1..])
  }

  /** `save_to_json`: the name, every department and every project. */
  function SaveCompany(c: Company): (r: CompanyRecord)
    requires forall j :: 0 <= j < |c.projects| ==> Dates.Valid(c.projects[j].deadline)
    ensures r.name == c.name
    ensures r.departments.Some? && |r.departments.value| == |c.departments|
    ensures forall i :: 0 <= i < |c.departments| ==> r.departments.value[i] == DepartmentToRecord(c.departments[i])
    ensures r.projects.Some? && |r.projects.value| == |c.projects|
    ensures forall j :: 0 <= j < |c.projects| ==> r.projects.value[j] == ProjectToRecord(c.projects[j])
  {
    CompanyRecord(c.name, Some(DepartmentsToRecords(c.departments)), Some(ProjectsToRecords(c.projects)))
  }

  // ---------------------------------------------------------------------
  // Loading

  /** Loads and adds each department record in turn. */
  function LoadDepartments(c: Company, rs: seq<DepartmentRecord>): (r: Result<Company>)
    ensures r.Ok? ==> r.value.name == c.name && r.value.projects == c.projects
    ensures r.Ok? ==> |r.value.departments| == |c.departments| + |rs|
    decreases |rs|
  {
    if |rs| == 0 then Ok(c)
    else
      var d :- LoadDepartment(|c.departments|, rs[0]);
      var c1 :- AddDepartment(c, d);
      LoadDepartments(c1, rs[1..])
  }

  /** A successful load keeps the departments already there and appends,
      for each record in turn, the department that record loads as at the
      next position. */
  lemma {:induction false} LoadDepartmentsInTurn(c: Company, rs: seq<DepartmentRecord>)
    requires LoadDepartments(c, rs).Ok?
    ensures var ds := LoadDepartments(c, rs).value.departments;
            && ds[..|c.departments|] == c.departments
            && forall i :: 0 <= i < |rs| ==> LoadDepartment(|c.departments| + i, rs[i]) == Ok(ds[|c.departments| + i])
    decreases |rs|
  {
    if |rs| == 0 {
      assert c.departments[..|c.departments|] == c.departments;
    } else {
      var d := LoadDepartment(|c.departments|, rs[0]).value;
      var c1 := AddDepartment(c, d).value;
      LoadDepartmentsCons(c, rs, d, c1);
      LoadDepartmentsInTurn(c1, rs[1..]);
      LoadedInTurn(LoadDepartment, c, rs, d, c1, LoadDepartments(c1, rs[1..]).value);
    }
  }

  /** The first record's department followed by what the rest loaded,
      for any loader `load`. */
  lemma LoadedInTurn(load: (nat, DepartmentRecord) -> Result<Department>, c: Company,
                     rs: seq<DepartmentRecord>, d: Department, c1: Company, c2: Company)
    requires |rs| > 0
    requires load(|c.departments|, rs[0]) == Ok(d)
    requires c1.departments == c.departments + [d]
    requires |c2.departments| == |c1.departments| + |rs| - 1
    requires c2.departments[..|c1.departments|] == c1.departments
    requires forall i :: 0 <= i < |rs| - 1 ==>
               load(|c1.departments| + i, rs[1..][i]) == Ok(c2.departments[|c1.departments| + i])
    ensures c2.departments[..|c.departments|] == c.departments
    ensures forall i :: 0 <= i < |rs| ==>
              load(|c.departments| + i, rs[i]) == Ok(c2.departments[|c.departments| + i])
  {
    var n := |c.departments|;
    assert c2.departments[..n] == c1.departments[..n];
    assert c2.departments[n] == c1.departments[n] == d;
    forall i | 0 < i < |rs|
      ensures load(n + i, rs[i]) == Ok(c2.departments[n + i])
    {
      var j := i - 1;
      assert rs[i] == rs[1..][j] && n + i == |c1.departments| + j;
    }
  }

  /** Re-assigns the saved team ids to the project, skipping a zero id and
      any id that no longer resolves; every other failure stops the load. */
  function Relink(c: Company, projectId: int, ids: seq<int>): (r: Result<Company>)
    ensures r.Ok? ==> r.value.name == c.name && r.value.departments == c.departments
    ensures r.Ok? ==> ProjectIds(r.value.projects) == ProjectIds(c.projects)
    decreases |ids|
  {
    if |ids| == 0 then Ok(c)
    else if ids[0] == 0 then Relink(c, projectId, ids[1..])
    else match Assign(c, ids[0], projectId)
      case Ok(c1) =>
        assert ProjectIds(c1.projects) == ProjectIds(c.projects);
        Relink(c1, projectId, ids[1..])
      case Err(EmployeeNotFound) => Relink(c, projectId, ids[1..])
      case Err(ProjectNotFound) => Relink(c, projectId, ids[1..])
      case Err(e) => Err(e)
  }

  /** Loads one project record, adds the project and relinks its team. */
  function LoadProject(c: Company, r: ProjectRecord): (res: Result<Company>)
    ensures res.Ok? ==> res.value.name == c.name && res.value.departments == c.departments
    ensures res.Ok? ==> |res.value.projects| == |c.projects| + 1
    ensures res.Ok? ==> ProjectIds(res.value.projects) == ProjectIds(c.projects) + [r.projectId]
  {
    var p :- ProjectFromRecord(|c.projects|, r);
    var c1 :- AddProject(c, p);
    Relink(c1, p.projectId, Ids'(r.team))
  }

  /** Whenever relinking succeeds, the project's team has grown by exactly
      the employees the ids resolve to, and nothing else has changed: a
      repeated id that resolves is the only way it fails. */
  lemma {:induction false} RelinkOk(c: Company, k: nat, ids: seq<int>)
    requires k < |c.projects|
    requires ProjectIndex(c.projects, c.projects[k].projectId) == Some(k)
    requires Relink(c, c.projects[k].projectId, ids).Ok?
    ensures Relink(c, c.projects[k].projectId, ids)
            == Ok(c.(projects := c.projects[k := c.projects[k].(team := c.projects[k].team
                                                                 + Resolve(c.departments, ids))]))
    decreases |ids|
  {
    var p := c.projects[k];
    if |ids| == 0 {
      assert p.team + [] == p.team;
      assert c.projects[k := p] == c.projects;
    } else {
      var x := ids[0];
      var rest := ids[1..];
      ResolveCons(c.departments, ids);
      if x != 0 && Companies.FindEmployee(c.departments, x).Some? {
        var e := Companies.FindEmployee(c.departments, x).value;
        assert x !in Ids(p.team);
        var p1 := p.(team := p.team + [e]);
        var c1 := c.(projects := c.projects[k := p1]);
        AssignStep(c, k, x);
        RelinkAssigned(c, p.projectId, ids, c1);
        AssignedKeepsIndex(c, k, p1);
        assert c1.projects[k] == p1;
        RelinkOk(c1, k, rest);
        SeqAssoc(p.team, [e], Resolve(c.departments, rest));
        OverwriteTwice(c.projects, k, p1, p1.(team := p1.team + Resolve(c.departments, rest)));
      } else {
        RelinkSkipped(c, p.projectId, ids);
        RelinkOk(c, k, rest);
      }
    }
  }

  /** A loaded project record keeps the projects already there and appends
      one project: the record's scalars, with its team resolved from the
      saved ids against the departments. */
  lemma LoadProjectAppends(c: Company, r: ProjectRecord)
    requires LoadProject(c, r).Ok?
    ensures var ps := LoadProject(c, r).value.projects;
            && ps[..|c.projects|] == c.projects
            && ProjectFromRecord(|c.projects|, r) == Ok(ps[|c.projects|].(team := []))
            && ps[|c.projects|].team == Resolve(c.departments, Ids'(r.team))
  {
    var n := |c.projects|;
    var p := ProjectFromRecord(n, r).value;
    var c1 := AddProject(c, p).value;
    ProjectIndexAppend(c.projects, p);
    assert c1.projects[n] == p;
    RelinkOk(c1, n, Ids'(r.team));
    assert [] + Resolve(c.departments, Ids'(r.team)) == Resolve(c.departments, Ids'(r.team));
  }

  /** Loads, adds and relinks each project record in turn. */
  function LoadProjects(c: Company, rs: seq<ProjectRecord>): (r: Result<Company>)
    ensures r.Ok? ==> r.value.name == c.name && r.value.departments == c.departments
    ensures r.Ok? ==> |r.value.projects| == |c.projects| + |rs|
    ensures r.Ok? ==> ProjectIds(r.value.projects) == ProjectIds(c.projects) + RecordProjectIds(rs)
    decreases |rs|
  {
    if |rs| == 0 then
      assert ProjectIds(c.projects) + [] == ProjectIds(c.projects);
      Ok(c)
    else
      var c1 :- LoadProject(c, rs[0]);
      RecordProjectIdsCons(rs);
      SeqAssoc(ProjectIds(c.projects), [rs[0].projectId], RecordProjectIds(rs[1..]));
      LoadProjects(c1, rs[1..])
  }

  function RecordProjectIds(rs: seq<ProjectRecord>): (r: seq<int>)
    ensures |r| == |rs|
    ensures forall j :: 0 <= j < |rs| ==> r[j] == rs[j].projectId
  {
    seq(|rs|, j requires 0 <= j < |rs| => rs[j].projectId)
  }

  lemma RecordProjectIdsCons(rs: seq<ProjectRecord>)
    requires |rs| > 0
    ensures RecordProjectIds(rs) == [rs[0].projectId] + RecordProjectIds(rs[1..])
  {
    assert RecordProjectIds(rs)[1..] == RecordProjectIds(rs[1..]);
  }

  /** `load_from_json`: the company, then every department, then every
      project with its team relinked to the loaded employees. */
  function LoadCompany(r: CompanyRecord): (res: Result<Company>)
    ensures res.Ok? ==> res.value.name == r.name && !IsBlank(res.value.name)
    ensures res.Ok? ==> |res.value.departments| == |r.departments.GetOr([])|
    ensures res.Ok? ==> |res.value.projects| == |r.projects.GetOr([])|
  {
    var c :- NewCompany(r.name);
    var c1 :- LoadDepartments(c, r.departments.GetOr([]));
    LoadProjects(c1, r.projects.GetOr([]))
  }

  // ---------------------------------------------------------------------
  // The round trip

  /** The saved team ids, resolved against the departments as a reload
      resolves them: an id no department holds is dropped. */
  function Resolve(ds: seq<Department>, ids: seq<int>): (team: seq<Employee>)
    ensures |team| <= |ids|
    ensures forall i :: 0 <= i < |team| ==> team[i].id in ids && team[i] in AllEmployees(ds)
    decreases |ids|
  {
    if |ids| == 0 then []
    else
      var head := if ids[0] != 0 && Companies.FindEmployee(ds, ids[0]).Some? then [Companies.FindEmployee(ds, ids[0]).value] else [];
      head + Resolve(ds, ids[1..])
  }

  function RestoredDepartments(ds: seq<Department>, base: nat): (r: seq<Department>)
    ensures |r| == |ds|
    ensures forall i :: 0 <= i < |ds| ==> r[i] == ds[i].(handle := base + i)
    decreases |ds|
  {
    if |ds| == 0 then [] else [ds[0].(handle := base)] + RestoredDepartments(ds[1..], base + 1)
  }

  function RestoredProjects(ds: seq<Department>, ps: seq<Project>, base: nat): (r: seq<Project>)
    ensures |r| == |ps|
    ensures forall j :: 0 <= j < |ps| ==>
              r[j] == ps[j].(handle := base + j, team := Resolve(ds, Ids(ps[j].team)))
    decreases |ps|
  {
    if |ps| == 0 then []
    else [ps[0].(handle := base, team := Resolve(ds, Ids(ps[0].team)))] + RestoredProjects(ds, ps[1..], base + 1)
  }

  /** The company `load_from_json(save_to_json(c))` gives: new handles, and
      teams rebuilt from the saved ids. */
  function Restored(c: Company): Company {
    Company(c.name, RestoredDepartments(c.departments, 0), RestoredProjects(c.departments, c.projects, 0))
  }

  lemma LoadDepartmentsCons(c: Company, rs: seq<DepartmentRecord>, d: Department, c1: Company)
    requires |rs| > 0
    requires LoadDepartment(|c.departments|, rs[0]) == Ok(d)
    requires AddDepartment(c, d) == Ok(c1)
    ensures LoadDepartments(c, rs) == LoadDepartments(c1, rs[1..])
  {
  }

  lemma RelinkAssigned(c: Company, projectId: int, ids: seq<int>, c1: Company)
    requires |ids| > 0 && ids[0] != 0
    requires Assign(c, ids[0], projectId) == Ok(c1)
    ensures Relink(c, projectId, ids) == Relink(c1, projectId, ids[1..])
  {
  }

  lemma RelinkSkipped(c: Company, projectId: int, ids: seq<int>)
    requires |ids| > 0
    requires ids[0] == 0 || Assign(c, ids[0], projectId) == Err(EmployeeNotFound)
    ensures Relink(c, projectId, ids) == Relink(c, projectId, ids[1..])
  {
  }

  /** One step of loading saved departments: the next department gets the
      next position as its handle and is accepted. */
  lemma LoadDepartmentsStep(c: Company, ds: seq<Department>)
    requires |ds| > 0 && ValidDepartment(ds[0])
    requires forall i :: 0 <= i < |c.departments| ==> c.departments[i].handle == i
    ensures LoadDepartments(c, DepartmentsToRecords(ds))
            == LoadDepartments(c.(departments := c.departments + [ds[0].(handle := |c.departments|)]),
                               DepartmentsToRecords(ds[1..]))
  {
    var n := |c.departments|;
    var rs := DepartmentsToRecords(ds);
    var d := ds[0].(handle := n);
    LoadSaved(ds[0], n);
    assert n !in DepartmentHandles(c.departments);
    assert rs[1..] == DepartmentsToRecords(ds[1..]);
    LoadDepartmentsCons(c, rs, d, c.(departments := c.departments + [d]));
  }

  lemma {:induction false} LoadDepartmentsSaved(c: Company, ds: seq<Department>)
    requires forall i :: 0 <= i < |c.departments| ==> c.departments[i].handle == i
    requires forall i :: 0 <= i < |ds| ==> ValidDepartment(ds[i])
    ensures LoadDepartments(c, DepartmentsToRecords(ds))
            == Ok(c.(departments := c.departments + RestoredDepartments(ds, |c.departments|)))
    decreases |ds|
  {
    var n := |c.departments|;
    if |ds| > 0 {
      LoadDepartmentsStep(c, ds);
      var c1 := c.(departments := c.departments + [ds[0].(handle := n)]);
      LoadDepartmentsSaved(c1, ds[1..]);
      SeqAssoc(c.departments, [ds[0].(handle := n)], RestoredDepartments(ds[1..], n + 1));
    } else {
      assert c.departments + [] == c.departments;
    }
  }

  /** Assigning an id that resolves, to a project that does not yet have it,
      appends the resolved employee to that project's team. */
  lemma AssignStep(c: Company, k: nat, x: int)
    requires k < |c.projects|
    requires ProjectIndex(c.projects, c.projects[k].projectId) == Some(k)
    requires Companies.FindEmployee(c.departments, x).Some?
    requires x !in Ids(c.projects[k].team)
    ensures Assign(c, x, c.projects[k].projectId)
            == Ok(c.(projects := c.projects[k := c.projects[k].(team := c.projects[k].team
                                                              + [Companies.FindEmployee(c.departments, x).value])]))
  {
  }

  /** The first project with an id depends only on the list of ids. */
  lemma ProjectIndexByIds(ps: seq<Project>, qs: seq<Project>, id: int)
    requires ProjectIds(ps) == ProjectIds(qs)
    ensures ProjectIndex(ps, id) == ProjectIndex(qs, id)
  {
    assert |ps| == |qs|;
    assert forall j :: 0 <= j < |ps| ==> ps[j].projectId == qs[j].projectId by {
      forall j | 0 <= j < |ps| ensures ps[j].projectId == qs[j].projectId {
        assert ProjectIds(ps)[j] == ProjectIds(qs)[j];
      }
    }
    match ProjectIndex(ps, id)
    case None =>
    case Some(k) =>
      var m := ProjectIndex(qs, id).value;
      assert !(m < k) && !(k < m);
  }

  lemma SeqAssoc<T>(a: seq<T>, b: seq<T>, c: seq<T>)
    ensures (a + b) + c == a + (b + c)
  {
  }

  lemma ResolveCons(ds: seq<Department>, ids: seq<int>)
    requires |ids| > 0
    ensures ids[0] != 0 && Companies.FindEmployee(ds, ids[0]).Some? ==>
              Resolve(ds, ids) == [Companies.FindEmployee(ds, ids[0]).value] + Resolve(ds, ids[1..])
    ensures !(ids[0] != 0 && Companies.FindEmployee(ds, ids[0]).Some?) ==>
              Resolve(ds, ids) == Resolve(ds, ids[1..])
  {
  }

  /** Relinking the ids of a duplicate-free team appends the employees they
      resolve to. */
  lemma {:induction false} RelinkResolves(c: Company, k: nat, ids: seq<int>)
    requires k < |c.projects|
    requires ProjectIndex(c.projects, c.projects[k].projectId) == Some(k)
    requires forall a, b :: 0 <= a < b < |ids| ==> ids[a] != ids[b]
    requires forall a :: 0 <= a < |ids| ==> ids[a] !in Ids(c.projects[k].team)
    ensures Relink(c, c.projects[k].projectId, ids)
            == Ok(c.(projects := c.projects[k := c.projects[k].(team := c.projects[k].team
                                                                 + Resolve(c.departments, ids))]))
    decreases |ids|, 1
  {
    var p := c.projects[k];
    if |ids| == 0 {
      assert p.team + [] == p.team;
      assert c.projects[k := p] == c.projects;
    } else if ids[0] != 0 && Companies.FindEmployee(c.departments, ids[0]).Some? {
      RelinkFound(c, k, ids);
    } else {
      RelinkNotFound(c, k, ids);
    }
  }

  lemma {:induction false} RelinkFound(c: Company, k: nat, ids: seq<int>)
    requires k < |c.projects|
    requires ProjectIndex(c.projects, c.projects[k].projectId) == Some(k)
    requires forall a, b :: 0 <= a < b < |ids| ==> ids[a] != ids[b]
    requires forall a :: 0 <= a < |ids| ==> ids[a] !in Ids(c.projects[k].team)
    requires |ids| > 0 && ids[0] != 0 && Companies.FindEmployee(c.departments, ids[0]).Some?
    ensures Relink(c, c.projects[k].projectId, ids)
            == Ok(c.(projects := c.projects[k := c.projects[k].(team := c.projects[k].team
                                                                 + Resolve(c.departments, ids))]))
    decreases |ids|, 0
  {
    var p := c.projects[k];
    var x := ids[0];
    var rest := ids[1..];
    ResolveCons(c.departments, ids);
    DistinctTail(ids);
    var e := Companies.FindEmployee(c.departments, x).value;
    var p1 := p.(team := p.team + [e]);
    var c1 := c.(projects := c.projects[k := p1]);
    AssignStep(c, k, x);
    RelinkAssigned(c, p.projectId, ids, c1);
    AssignedKeepsIndex(c, k, p1);
    RestStillFresh(ids, p.team, e);
    RelinkResolves(c1, k, rest);
    var tail := Resolve(c.departments, rest);
    assert c1.projects[k] == p1;
    SeqAssoc(p.team, [e], tail);
    OverwriteTwice(c.projects, k, p1, p1.(team := p1.team + tail));
  }

  lemma OverwriteTwice<T>(s: seq<T>, k: nat, a: T, b: T)
    requires k < |s|
    ensures s[k := a][k := b] == s[k := b]
  {
  }

  /** Replacing a project's team leaves every project id, and so the index
      of the project, as it was. */
  lemma AssignedKeepsIndex(c: Company, k: nat, p1: Project)
    requires k < |c.projects| && p1.projectId == c.projects[k].projectId
    requires ProjectIndex(c.projects, c.projects[k].projectId) == Some(k)
    ensures ProjectIndex(c.projects[k := p1], p1.projectId) == Some(k)
  {
    assert ProjectIds(c.projects[k := p1]) == ProjectIds(c.projects);
    ProjectIndexByIds(c.projects[k := p1], c.projects, p1.projectId);
  }

  /** Once the first id's employee has joined the team, the remaining
      distinct ids are still absent from it. */
  lemma RestStillFresh(ids: seq<int>, team: seq<Employee>, e: Employee)
    requires |ids| > 0 && e.id == ids[0]
    requires forall a, b :: 0 <= a < b < |ids| ==> ids[a] != ids[b]
    requires forall a :: 0 <= a < |ids| ==> ids[a] !in Ids(team)
    ensures forall a :: 0 <= a < |ids[1..]| ==> ids[1..][a] !in Ids(team + [e])
  {
    var rest := ids[1..];
    assert Ids(team + [e]) == Ids(team) + [e.id];
    forall a | 0 <= a < |rest| ensures rest[a] !in Ids(team + [e]) {
      assert rest[a] == ids[a + 1];
    }
  }

  lemma {:induction false} RelinkNotFound(c: Company, k: nat, ids: seq<int>)
    requires k < |c.projects|
    requires ProjectIndex(c.projects, c.projects[k].projectId) == Some(k)
    requires forall a, b :: 0 <= a < b < |ids| ==> ids[a] != ids[b]
    requires forall a :: 0 <= a < |ids| ==> ids[a] !in Ids(c.projects[k].team)
    requires |ids| > 0 && !(ids[0] != 0 && Companies.FindEmployee(c.departments, ids[0]).Some?)
    ensures Relink(c, c.projects[k].projectId, ids)
            == Ok(c.(projects := c.projects[k := c.projects[k].(team := c.projects[k].team
                                                                 + Resolve(c.departments, ids))]))
    decreases |ids|, 0
  {
    var p := c.projects[k];
    var rest := ids[1..];
    ResolveCons(c.departments, ids);
    DistinctTail(ids);
    RelinkSkipped(c, p.projectId, ids);
    assert forall a :: 0 <= a < |rest| ==> rest[a] !in Ids(p.team) by {
      forall a | 0 <= a < |rest| ensures rest[a] !in Ids(p.team) {
        assert rest[a] == ids[a + 1];
      }
    }
    RelinkResolves(c, k, rest);
  }

  lemma DistinctTail(ids: seq<int>)
    requires |ids| > 0
    requires forall a, b :: 0 <= a < b < |ids| ==> ids[a] != ids[b]
    ensures forall a, b :: 0 <= a < b < |ids[1..]| ==> ids[1..][a] != ids[1..][b]
  {
    var rest := ids[1..];
    forall a, b | 0 <= a < b < |rest| ensures rest[a] != rest[b] {
      assert rest[a] == ids[a + 1] && rest[b] == ids[b + 1];
    }
  }

  lemma IdsOfEncoded(es: seq<Employee>)
    ensures Ids'(EncodeAll(es)) == Ids(es)
  {
  }

  /** Adding a loaded project whose id is new, at the next position. */
  lemma AddLoadedProject(c: Company, q: Project)
    requires forall j :: 0 <= j < |c.projects| ==> c.projects[j].handle == j
    requires q.projectId !in ProjectIds(c.projects)
    ensures var c1 := c.(projects := c.projects + [q.(handle := |c.projects|, team := [])]);
            && AddProject(c, q.(handle := |c.projects|, team := [])) == Ok(c1)
            && ProjectIndex(c1.projects, q.projectId) == Some(|c.projects|)
  {
    var n := |c.projects|;
    assert n !in ProjectHandles(c.projects);
    ProjectIndexAppend(c.projects, q.(handle := n, team := []));
  }

  /** A project whose id is new is found at the end it was appended to. */
  lemma ProjectIndexAppend(ps: seq<Project>, p: Project)
    requires p.projectId !in ProjectIds(ps)
    ensures ProjectIndex(ps + [p], p.projectId) == Some(|ps|)
  {
    var all := ps + [p];
    assert ProjectIds(all)[|ps|] == p.projectId;
    forall j | 0 <= j < |ps| ensures all[j].projectId != p.projectId {
      assert all[j] == ps[j] && ProjectIds(ps)[j] == ps[j].projectId;
    }
  }

  /** One step of loading saved projects: the next project is rebuilt,
      accepted, and its team relinked. */
  lemma {:induction false} LoadProjectsStep(c: Company, ps: seq<Project>)
    requires |ps| > 0 && ValidProject(ps[0])
    requires forall j :: 0 <= j < |ps| ==> Dates.Valid(ps[j].deadline)
    requires forall j :: 0 <= j < |c.projects| ==> c.projects[j].handle == j
    requires ps[0].projectId !in ProjectIds(c.projects)
    ensures LoadProjects(c, ProjectsToRecords(ps))
            == LoadProjects(c.(projects := c.projects + [ps[0].(handle := |c.projects|,
                                                               team := Resolve(c.departments, Ids(ps[0].team)))]),
                            ProjectsToRecords(ps[1..]))
  {
    var rs := ProjectsToRecords(ps);
    assert rs[0] == ProjectToRecord(ps[0]);
    assert rs[1..] == ProjectsToRecords(ps[1..]);
    LoadSavedProject(c, ps[0]);
  }

  /** Loading one saved project adds it at the next position with its team
      resolved against the departments. */
  lemma {:induction false} LoadSavedProject(c: Company, q: Project)
    requires ValidProject(q) && Dates.Valid(q.deadline)
    requires forall j :: 0 <= j < |c.projects| ==> c.projects[j].handle == j
    requires q.projectId !in ProjectIds(c.projects)
    ensures LoadProject(c, ProjectToRecord(q))
            == Ok(c.(projects := c.projects + [q.(handle := |c.projects|,
                                                  team := Resolve(c.departments, Ids(q.team)))]))
  {
    ProjectRoundTrip(q, |c.projects|);
    AddLoadedProject(c, q);
    RelinkSavedTeam(c, q);
  }

  /** Relinking the saved team of a project just added empty at the next
      position fills in the resolved team. */
  lemma {:induction false} RelinkSavedTeam(c: Company, q: Project)
    requires ValidProject(q)
    requires forall j :: 0 <= j < |c.projects| ==> c.projects[j].handle == j
    requires q.projectId !in ProjectIds(c.projects)
    ensures var n := |c.projects|;
            Relink(c.(projects := c.projects + [q.(handle := n, team := [])]), q.projectId, Ids'(EncodeAll(q.team)))
            == Ok(c.(projects := c.projects + [q.(handle := n, team := Resolve(c.departments, Ids(q.team)))]))
  {
    var n := |c.projects|;
    var p := q.(handle := n, team := []);
    AddLoadedProject(c, q);
    var c1 := c.(projects := c.projects + [p]);
    IdsOfEncoded(q.team);
    RelinkResolves(c1, n, Ids(q.team));
    var team := Resolve(c.departments, Ids(q.team));
    assert c1.projects[n].team + team == team;
    assert c1.projects[n := p.(team := team)] == c.projects + [q.(handle := n, team := team)];
  }

  lemma SameProjectIds(ps: seq<Project>, qs: seq<Project>)
    requires |ps| == |qs| && UniqueProjectIds(ps)
    requires forall j :: 0 <= j < |ps| ==> ps[j].projectId == qs[j].projectId
    ensures UniqueProjectIds(qs)
  {
  }

  lemma {:induction false} LoadProjectsSaved(c: Company, ps: seq<Project>)
    requires forall j :: 0 <= j < |c.projects| ==> c.projects[j].handle == j
    requires forall j :: 0 <= j < |ps| ==> ValidProject(ps[j])
    requires forall j :: 0 <= j < |ps| ==> Dates.Valid(ps[j].deadline)
    requires UniqueProjectIds(c.projects + ps)
    ensures LoadProjects(c, ProjectsToRecords(ps))
            == Ok(c.(projects := c.projects + RestoredProjects(c.departments, ps, |c.projects|)))
    decreases |ps|
  {
    var n := |c.projects|;
    if |ps| == 0 {
      assert c.projects + [] == c.projects;
    } else {
      FirstIdFresh(c.projects, ps);
      LoadProjectsStep(c, ps);
      var p2 := ps[0].(handle := n, team := Resolve(c.departments, Ids(ps[0].team)));
      var c2 := c.(projects := c.projects + [p2]);
      UniqueAfterStep(c.projects, ps, p2);
      LoadProjectsSaved(c2, ps[1..]);
      SeqAssoc(c.projects, [p2], RestoredProjects(c.departments, ps[1..], n + 1));
    }
  }

  /** With all ids distinct, the first of the new projects has an id the
      loaded ones do not. */
  lemma FirstIdFresh(loaded: seq<Project>, ps: seq<Project>)
    requires |ps| > 0 && UniqueProjectIds(loaded + ps)
    ensures ps[0].projectId !in ProjectIds(loaded)
  {
    var all := loaded + ps;
    var n := |loaded|;
    forall j | 0 <= j < n ensures loaded[j].projectId != ps[0].projectId {
      assert all[j] == loaded[j] && all[n] == ps[0];
    }
  }

  /** Moving the first new project, with the same id, to the loaded ones
      keeps all ids distinct. */
  lemma UniqueAfterStep(loaded: seq<Project>, ps: seq<Project>, p2: Project)
    requires |ps| > 0 && UniqueProjectIds(loaded + ps) && p2.projectId == ps[0].projectId
    ensures UniqueProjectIds((loaded + [p2]) + ps[1..])
  {
    var n := |loaded|;
    var all := loaded + ps;
    var all2 := (loaded + [p2]) + ps[1..];
    forall j | 0 <= j < |all2| ensures all2[j].projectId == all[j].projectId {
      if j < n {
        assert all2[j] == loaded[j] == all[j];
      } else if j == n {
        assert all2[j] == p2 && all[j] == ps[0];
      } else {
        assert all2[j] == ps[j - n] == all[j];
      }
    }
    SameProjectIds(all, all2);
  }

  /** A reload looks employees up by id only, so new department handles do
      not change what an id resolves to. */
  lemma {:induction false} FindIgnoresHandles(ds: seq<Department>, base: nat, id: int)
    ensures Companies.FindEmployee(RestoredDepartments(ds, base), id) == Companies.FindEmployee(ds, id)
    decreases |ds|
  {
    if |ds| > 0 {
      var rd := RestoredDepartments(ds, base);
      assert rd[1..] == RestoredDepartments(ds[1..], base + 1);
      FindIgnoresHandles(ds[1..], base + 1, id);
      assert Departments.FindEmployee(rd[0], id) == Departments.FindEmployee(ds[0], id);
    }
  }

  lemma {:induction false} ResolveIgnoresHandles(ds: seq<Department>, ids: seq<int>)
    ensures Resolve(RestoredDepartments(ds, 0), ids) == Resolve(ds, ids)
    decreases |ids|
  {
    if |ids| > 0 {
      FindIgnoresHandles(ds, 0, ids[0]);
      ResolveIgnoresHandles(ds, ids[1..]);
    }
  }

  /** Saving then loading a valid company gives back its name, its
      departments with their members in order, and its projects with their
      data; each team is rebuilt from the saved ids, keeping only those some
      department still holds. */
  lemma {:induction false} SaveLoad(c: Company)
    requires ValidCompany(c)
    ensures LoadCompany(SaveCompany(c)) == Ok(Restored(c))
  {
    SavedDepartmentsLoad(c);
    SavedProjectsLoad(c);
  }

  /** The first half of the reload: the saved departments into an empty
      company of the saved name. */
  lemma {:induction false} SavedDepartmentsLoad(c: Company)
    requires ValidCompany(c)
    ensures LoadDepartments(Company(c.name, [], []), DepartmentsToRecords(c.departments))
            == Ok(Company(c.name, RestoredDepartments(c.departments, 0), []))
  {
    var rd := RestoredDepartments(c.departments, 0);
    LoadDepartmentsSaved(Company(c.name, [], []), c.departments);
    assert [] + rd == rd;
  }

  /** The second half: the saved projects into the reloaded departments. */
  lemma {:induction false} SavedProjectsLoad(c: Company)
    requires ValidCompany(c)
    ensures LoadProjects(Company(c.name, RestoredDepartments(c.departments, 0), []), ProjectsToRecords(c.projects))
            == Ok(Restored(c))
  {
    var rd := RestoredDepartments(c.departments, 0);
    var c1 := Company(c.name, rd, []);
    assert [] + c.projects == c.projects;
    LoadProjectsSaved(c1, c.projects);
    var rp := RestoredProjects(rd, c.projects, 0);
    assert [] + rp == rp;
    RestoredProjectsIgnoreHandles(c.departments, c.projects, 0);
  }

  lemma {:induction false} RestoredProjectsIgnoreHandles(ds: seq<Department>, ps: seq<Project>, base: nat)
    ensures RestoredProjects(RestoredDepartments(ds, 0), ps, base) == RestoredProjects(ds, ps, base)
    decreases |ps|
  {
    if |ps| > 0 {
      ResolveIgnoresHandles(ds, Ids(ps[0].team));
      RestoredProjectsIgnoreHandles(ds, ps[1..], base + 1);
    }
  }

  /** A team made of the company's own employees survives the round trip
      unchanged. */
  lemma {:induction false} ResolveOwnTeam(ds: seq<Department>, team: seq<Employee>)
    requires forall i :: 0 <= i < |team| ==> team[i].id != 0 && Companies.FindEmployee(ds, team[i].id) == Some(team[i])
    ensures Resolve(ds, Ids(team)) == team
    decreases |team|
  {
    if |team| > 0 {
      assert Ids(team)[1..] == Ids(team[1..]);
      ResolveOwnTeam(ds, team[1..]);
      assert team == [team[0]] + team[1..];
    }
  }

  // ---------------------------------------------------------------------
  // CSV reports

  const EmployeeReportHeader: seq<string> :=
    ["ID", "Имя", "Отдел", "Тип", "Базовая зарплата", "Итоговая зарплата"]

  const ProjectReportHeader: seq<string> :=
    ["ID проекта", "Название", "Статус", "Срок", "Размер команды", "Бюджет команды"]

  datatype EmployeeRow = EmployeeRow(
    id: int, name: string, department: string, typeName: string, baseSalary: real, salary: real)

  datatype ProjectRow = ProjectRow(
    projectId: int, name: string, status: string, deadline: string, teamSize: nat, teamBudget: real)

  function EmployeeRowOf(e: Employee): EmployeeRow {
    EmployeeRow(e.id, e.name, e.department, TypeName(e), e.baseSalary, Salary(e))
  }

  /** `export_employees_csv`: one row per employee, department by
      department. */
  function EmployeeReport(c: Company): (rows: seq<EmployeeRow>)
    ensures |rows| == |AllEmployees(c.departments)|
    ensures forall i :: 0 <= i < |rows| ==> rows[i] == EmployeeRowOf(AllEmployees(c.departments)[i])
  {
    var es := AllEmployees(c.departments);
    seq(|es|, i requires 0 <= i < |es| => EmployeeRowOf(es[i]))
  }

  function SalaryColumn(rows: seq<EmployeeRow>): real
    decreases |rows|
  {
    if |rows| == 0 then 0.0 else SalaryColumn(rows[..|rows| - 1]) + rows[|rows| - 1].salary
  }

  lemma {:induction false} SalaryColumnIsTotal(es: seq<Employee>, rows: seq<EmployeeRow>)
    requires |rows| == |es|
    requires forall i :: 0 <= i < |es| ==> rows[i] == EmployeeRowOf(es[i])
    ensures SalaryColumn(rows) == TotalSalary(es)
    decreases |es|
  {
    if |es| > 0 {
      SalaryColumnIsTotal(es[..|es| - 1], rows[..|rows| - 1]);
    }
  }

  /** The final-salary column of the employee report adds up to the
      company's monthly cost. */
  lemma EmployeeReportTotal(c: Company)
    ensures SalaryColumn(EmployeeReport(c)) == MonthlyCost(c.departments)
  {
    SalaryColumnIsTotal(AllEmployees(c.departments), EmployeeReport(c));
    MonthlyCostIsTotalSalary(c.departments);
  }

  /** `export_projects_csv`: one row per project, the deadline written as
      `YYYY-MM-DD`. */
  function ProjectReport(c: Company): (rows: seq<ProjectRow>)
    requires forall j :: 0 <= j < |c.projects| ==> Dates.Valid(c.projects[j].deadline)
    ensures |rows| == |c.projects|
    ensures forall j :: 0 <= j < |rows| ==>
              && rows[j].projectId == c.projects[j].projectId
              && rows[j].name == c.projects[j].name
              && ParseStatus(rows[j].status) == Ok(c.projects[j].status)
              && Dates.Parse(rows[j].deadline) == Ok(c.projects[j].deadline)
              && rows[j].teamSize == |c.projects[j].team|
              && rows[j].teamBudget == TeamSalary(c.projects[j])
  {
    var ps := c.projects;
    var rows := seq(|ps|, j requires 0 <= j < |ps| =>
                  ProjectRow(ps[j].projectId, ps[j].name, StatusName(ps[j].status),
                             Dates.Format(ps[j].deadline), TeamSize(ps[j]), TeamSalary(ps[j])));
    forall j | 0 <= j < |ps| ensures Dates.Parse(rows[j].deadline) == Ok(ps[j].deadline) && ParseStatus(rows[j].status) == Ok(ps[j].status) {
      Dates.ParseFormat(ps[j].deadline);
      ParseStatusName(ps[j].status);
    }
    rows
  }
}
