/** A project: id, name, free-text description, a deadline date, one of four
    statuses, and a team of employees it borrows from departments. The
    `handle` stands for the Python object's identity, which a company
    compares when the same project is added twice.
 */
module Projects {
  import opened Outcomes
  import opened Text
  import opened Employees
  import opened Departments
  import Dates

  /** The four legal statuses. Any status may follow any other. */
  datatype Status = Planning | Active | Completed | Cancelled

  function StatusName(s: Status): string {
    match s
    case Planning => "planning"
    case Active => "active"
    case Completed => "completed"
    case Cancelled => "cancelled"
  }

  const LegalStatuses: set<string> := {"planning", "active", "completed", "cancelled"}

  /** The status a project gets when none is given. */
  const DefaultStatus: string := "planning"

  /** `_validate_status`: only the four names are statuses. */
  function ParseStatus(s: string): (r: Result<Status>)
    ensures r.Ok? <==> s in LegalStatuses
    ensures r.Ok? ==> StatusName(r.value) == s
    ensures r.Err? ==> r.error == InvalidStatus
  {
    if s == "planning" then Ok(Planning)
    else if s == "active" then Ok(Active)
    else if s == "completed" then Ok(Completed)
    else if s == "cancelled" then Ok(Cancelled)
    else Err(InvalidStatus)
  }

  lemma ParseStatusName(s: Status)
    ensures ParseStatus(StatusName(s)) == Ok(s)
  {
  }

  datatype Project = Project(
    handle: nat, projectId: int, name: string, description: string,
    deadline: Dates.Date, status: Status, team: seq<Employee>)

  predicate ValidProject(p: Project) {
    && p.projectId > 0
    && !IsBlank(p.name)
    && Dates.Valid(p.deadline)
    && UniqueIds(p.team)
  }

  /** The constructor checks the id, the name, the deadline and the status,
      in that order; the description is not checked, a missing status is
      "planning", and the team starts empty. */
  function NewProject(handle: nat, projectId: int, name: string, description: string,
                      deadline: string, status: Option<string>): (r: Result<Project>)
    ensures r.Ok? <==> && projectId > 0 && !IsBlank(name)
                       && Dates.Parse(deadline).Ok? && status.GetOr(DefaultStatus) in LegalStatuses
    ensures r.Ok? ==> && ValidProject(r.value) && r.value.team == []
                      && r.value.handle == handle && r.value.projectId == projectId
                      && r.value.name == name && r.value.description == description
                      && Dates.Parse(deadline) == Ok(r.value.deadline)
                      && StatusName(r.value.status) == status.GetOr(DefaultStatus)
    ensures r.Ok? && status.None? ==> r.value.status == Planning
    ensures projectId <= 0 ==> r == Err(ValueError(Invalid(ProjectIdField)))
    ensures projectId > 0 && IsBlank(name) ==> r == Err(ValueError(Invalid(ProjectNameField)))
    ensures projectId > 0 && !IsBlank(name) && Dates.Parse(deadline).Err? ==>
              r == Err(ValueError(Invalid(DeadlineField)))
    ensures projectId > 0 && !IsBlank(name) && Dates.Parse(deadline).Ok?
            && status.GetOr(DefaultStatus) !in LegalStatuses ==>
              r == Err(InvalidStatus)
  {
    if projectId <= 0 then Err(ValueError(Invalid(ProjectIdField)))
    else if IsBlank(name) then Err(ValueError(Invalid(ProjectNameField)))
    else
      var date :- Dates.Parse(deadline);
      var s :- ParseStatus(status.GetOr(DefaultStatus));
      Ok(Project(handle, projectId, name, description, date, s, []))
  }

  /** `change_status`: any legal status from any status. */
  function ChangeStatus(p: Project, status: string): (r: Result<Project>)
    ensures r.Ok? <==> status in LegalStatuses
    ensures r.Ok? ==> r.value == p.(status := r.value.status) && StatusName(r.value.status) == status
    ensures r.Err? ==> r.error == InvalidStatus
  {
    var s :- ParseStatus(status);
    Ok(p.(status := s))
  }

  /** `find_team_member`: the first team member with that id, or nothing. */
  function FindTeamMember(p: Project, id: int): (r: Option<Employee>)
    ensures r.None? <==> id !in Ids(p.team)
    ensures r.Some? ==> r.value in p.team && r.value.id == id
    ensures r.Some? ==> exists k :: 0 <= k < |p.team| && p.team[k] == r.value
                                    && forall j :: 0 <= j < k ==> p.team[j].id != id
  {
    match IndexOf(p.team, id)
    case None => None
    case Some(k) => Some(p.team[k])
  }

  /** `add_team_member`: refused when an equal-id member is already on the
      team; otherwise the employee joins at the end. */
  function AddTeamMember(p: Project, e: Employee): (r: Result<Project>)
    ensures r.Ok? <==> e.id !in Ids(p.team)
    ensures r.Ok? ==> r.value == p.(team := p.team + [e])
    ensures r.Err? ==> r.error == ValueError(AlreadyMember)
    ensures r.Ok? && UniqueIds(p.team) ==> UniqueIds(r.value.team)
  {
    if e.id in Ids(p.team) then Err(ValueError(AlreadyMember))
    else Ok(p.(team := p.team + [e]))
  }

  /** `remove_team_member`: refused when no member has the id; otherwise
      that member alone leaves and the others keep their order. */
  function RemoveTeamMember(p: Project, id: int): (r: Result<Project>)
    ensures r.Ok? <==> id in Ids(p.team)
    ensures r.Err? ==> r.error == ValueError(NotMember)
    ensures r.Ok? ==> exists k :: && 0 <= k < |p.team| && p.team[k].id == id
                                  && (forall j :: 0 <= j < k ==> p.team[j].id != id)
                                  && r.value == p.(team := p.team[..k] + p.team[k + 1..])
    ensures r.Ok? && UniqueIds(p.team) ==>
              UniqueIds(r.value.team) && id !in Ids(r.value.team) && |r.value.team| == |p.team| - 1
  {
    match RemoveById(p.team, id)
    case None => Err(ValueError(NotMember))
    case Some(rest) => Ok(p.(team := rest))
  }

  /** `get_team_size`. */
  function TeamSize(p: Project): nat {
    |p.team|
  }

  /** `calculate_total_salary`: the team's computed salaries, whatever
      department the members belong to. */
  function TeamSalary(p: Project): real {
    TotalSalary(p.team)
  }

  /** Adding then removing a member restores the team and its budget. */
  lemma AddThenRemove(p: Project, e: Employee)
    requires UniqueIds(p.team)
    requires AddTeamMember(p, e).Ok?
    ensures RemoveTeamMember(AddTeamMember(p, e).value, e.id) == Ok(p)
    ensures TeamSalary(AddTeamMember(p, e).value) == TeamSalary(p) + Salary(e)
  {
    var q := p.(team := p.team + [e]);
    assert q.team[|p.team|].id == e.id;
    AppendedRemoved(p.team, e, RemoveTeamMember(q, e.id).value.team);
    TotalSalaryAppend(p.team, [e]);
    assert [e][..0] == [];
  }

  /** Removing the first member with an id that only the last member has
      leaves the members before it. */
  lemma AppendedRemoved(team: seq<Employee>, e: Employee, rest: seq<Employee>)
    requires e.id !in Ids(team)
    requires exists k :: && 0 <= k < |team + [e]| && (team + [e])[k].id == e.id
                         && (forall j :: 0 <= j < k ==> (team + [e])[j].id != e.id)
                         && rest == (team + [e])[..k] + (team + [e])[k + 1..]
    ensures rest == team
  {
    var all := team + [e];
    var k :| && 0 <= k < |all| && all[k].id == e.id
             && (forall j :: 0 <= j < k ==> all[j].id != e.id)
             && rest == all[..k] + all[k + 1..];
    assert all[..|team|] == team;
  }

  // ---------------------------------------------------------------------
  // Records

  /** The dictionary a project is saved as; `status` may be missing. */
  datatype ProjectRecord = ProjectRecord(
    projectId: int, name: string, description: string, deadline: string,
    status: Option<string>, team: seq<EmployeeRecord>)

  /** `to_dict`: the scalars, the deadline as `YYYY-MM-DD`, and the team as
      full employee records. */
  function ProjectToRecord(p: Project): (r: ProjectRecord)
    requires Dates.Valid(p.deadline)
    ensures r.projectId == p.projectId && r.name == p.name && r.description == p.description
    ensures Dates.Parse(r.deadline) == Ok(p.deadline)
    ensures r.status == Some(StatusName(p.status))
    ensures r.team == EncodeAll(p.team)
  {
    Dates.ParseFormat(p.deadline);
    ProjectRecord(p.projectId, p.name, p.description, Dates.Format(p.deadline),
                  Some(StatusName(p.status)), EncodeAll(p.team))
  }

  /** `from_dict`: the scalars only, with a missing status read as
      "planning"; the team is left empty for the company to relink. */
  function ProjectFromRecord(handle: nat, r: ProjectRecord): (res: Result<Project>)
    ensures res.Ok? ==> && res.value.team == [] && res.value.handle == handle
                        && res.value.projectId == r.projectId
                        && res.value.name == r.name && res.value.description == r.description
                        && Dates.Parse(r.deadline) == Ok(res.value.deadline)
                        && StatusName(res.value.status) == r.status.GetOr(DefaultStatus)
    ensures res.Ok? <==> && r.projectId > 0 && !IsBlank(r.name) && Dates.Parse(r.deadline).Ok?
                         && r.status.GetOr(DefaultStatus) in LegalStatuses
  {
    NewProject(handle, r.projectId, r.name, r.description, r.deadline, r.status)
  }

  /** A saved project comes back with the same scalars and an empty team. */
  lemma ProjectRoundTrip(p: Project, handle: nat)
    requires ValidProject(p)
    ensures ProjectFromRecord(handle, ProjectToRecord(p)) == Ok(p.(handle := handle, team := []))
  {
    ParseStatusName(p.status);
  }

  /** A record without a status loads as a planning project. */
  lemma MissingStatusIsPlanning(handle: nat, r: ProjectRecord)
    requires r.status.None?
    requires ProjectFromRecord(handle, r).Ok?
    ensures ProjectFromRecord(handle, r).value.status == Planning
  {
  }
}
