/** A department: a named, ordered collection of the employees it owns,
    unique by id. The `handle` stands for the Python object's identity,
    which is what a company compares when a department is added twice
    (departments define no equality of their own).
 */
module Departments {
  import opened Outcomes
  import opened Text
  import opened Employees

  datatype Department = Department(handle: nat, name: string, employees: seq<Employee>)

  /** The ids of a list of employees, in order. */
  function Ids(es: seq<Employee>): (r: seq<int>)
    ensures |r| == |es|
    ensures forall i :: 0 <= i < |es| ==> r[i] == es[i].id
  {
    seq(|es|, i requires 0 <= i < |es| => es[i].id)
  }

  /** No two employees share an id. */
  predicate UniqueIds(es: seq<Employee>) {
    forall i, j :: 0 <= i < j < |es| ==> es[i].id != es[j].id
  }

  /** Python's `employee in employees` compares with `__eq__`, that is by
      id alone: some member equals `e` exactly when `e`'s id is among the
      members' ids. This is why the model tests membership on ids. */
  lemma MemberIffSameId(es: seq<Employee>, e: Employee)
    ensures (exists x :: x in es && SameEmployee(x, e)) <==> e.id in Ids(es)
  {
    if e.id in Ids(es) {
      var k :| 0 <= k < |es| && Ids(es)[k] == e.id;
      assert es[k] in es && SameEmployee(es[k], e);
    }
    if x :| x in es && SameEmployee(x, e) {
      var k :| 0 <= k < |es| && es[k] == x;
      assert Ids(es)[k] == e.id;
    }
  }

  /** What every department reachable through the public operations
      satisfies. */
  predicate ValidDepartment(d: Department) {
    && !IsBlank(d.name)
    && UniqueIds(d.employees)
    && forall i :: 0 <= i < |d.employees| ==> Valid(d.employees[i])
  }

  function NewDepartment(handle: nat, name: string): (r: Result<Department>)
    ensures r.Ok? <==> !IsBlank(name)
    ensures r.Ok? ==> r.value == Department(handle, name, []) && ValidDepartment(r.value)
    ensures r.Err? ==> r.error == ValueError(Invalid(DepartmentNameField))
  {
    if IsBlank(name) then Err(ValueError(Invalid(DepartmentNameField)))
    else Ok(Department(handle, name, []))
  }

  /** The name setter, which validates like the constructor. */
  function Rename(d: Department, name: string): (r: Result<Department>)
    ensures r.Ok? <==> !IsBlank(name)
    ensures r.Ok? ==> r.value == d.(name := name)
    ensures r.Err? ==> r.error == ValueError(Invalid(DepartmentNameField))
  {
    if IsBlank(name) then Err(ValueError(Invalid(DepartmentNameField)))
    else Ok(d.(name := name))
  }

  /** The position of the first employee with this id. */
  function IndexOf(es: seq<Employee>, id: int): (k: Option<nat>)
    ensures k.None? <==> id !in Ids(es)
    ensures k.Some? ==> k.value < |es| && es[k.value].id == id
    ensures k.Some? ==> forall j :: 0 <= j < k.value ==> es[j].id != id
    decreases |es|
  {
    if |es| == 0 then None
    else if es[0].id == id then Some(0)
    else
      IdsCons(es);
      match IndexOf(es[1..], id)
      case None => None
      case Some(k) =>
        FirstAfterHead(es, id, k);
        Some(k + 1)
  }

  lemma FirstAfterHead(es: seq<Employee>, id: int, k: nat)
    requires |es| > 0 && es[0].id != id && k < |es| - 1
    requires forall j :: 0 <= j < k ==> es[1..][j].id != id
    ensures forall j :: 0 <= j < k + 1 ==> es[j].id != id
  {
    forall j | 0 < j < k + 1
      ensures es[j].id != id
    {
      assert es[j] == es[1..][j - 1];
    }
  }

  lemma IdsCons(es: seq<Employee>)
    requires |es| > 0
    ensures Ids(es) == [es[0].id] + Ids(es[1..])
  {
  }

  /** `find_employee_by_id`: the first member with that id, or nothing. */
  function FindEmployee(d: Department, id: int): (r: Option<Employee>)
    ensures r.None? <==> id !in Ids(d.employees)
    ensures r.Some? ==> r.value in d.employees && r.value.id == id
    ensures r.Some? ==> exists k :: 0 <= k < |d.employees| && d.employees[k] == r.value
                                    && forall j :: 0 <= j < k ==> d.employees[j].id != id
  {
    match IndexOf(d.employees, id)
    case None => None
    case Some(k) => Some(d.employees[k])
  }

  /** `employee in department`: membership by id, as `__eq__` compares. */
  predicate Contains(d: Department, e: Employee) {
    e.id in Ids(d.employees)
  }

  /** `add_employee`: an employee whose id is already present is refused;
      otherwise it joins at the end. */
  function AddEmployee(d: Department, e: Employee): (r: Result<Department>)
    ensures r.Ok? <==> !Contains(d, e)
    ensures r.Ok? ==> r.value == d.(employees := d.employees + [e])
    ensures r.Err? ==> r.error == ValueError(AlreadyMember)
    ensures r.Ok? && UniqueIds(d.employees) ==> UniqueIds(r.value.employees)
  {
    if e.id in Ids(d.employees) then Err(ValueError(AlreadyMember))
    else Ok(d.(employees := d.employees + [e]))
  }

  /** The list without its first employee carrying `id`, or nothing when
      no employee carries it. */
  function RemoveById(es: seq<Employee>, id: int): (r: Option<seq<Employee>>)
    ensures r.Some? <==> id in Ids(es)
    ensures r.Some? ==> exists k :: && 0 <= k < |es| && es[k].id == id
                                  && (forall j :: 0 <= j < k ==> es[j].id != id)
                                  && r.value == es[..k] + es[k + 1..]
    ensures r.Some? && UniqueIds(es) ==>
              UniqueIds(r.value) && id !in Ids(r.value) && |r.value| == |es| - 1
  {
    match IndexOf(es, id)
    case None => None
    case Some(k) =>
      RemoveAtFacts(es, k);
      Some(es[..k] + es[k + 1..])
  }

  lemma RemoveAtFacts(es: seq<Employee>, k: nat)
    requires k < |es|
    ensures UniqueIds(es) ==> UniqueIds(es[..k] + es[k + 1..])
    ensures UniqueIds(es) ==> es[k].id !in Ids(es[..k] + es[k + 1..])
    ensures |es[..k] + es[k + 1..]| == |es| - 1
  {
    var rest := es[..k] + es[k + 1..];
    assert forall i :: 0 <= i < |rest| ==> rest[i] == (if i < k then es[i] else es[i + 1]);
    if UniqueIds(es) {
      forall i | 0 <= i < |rest|
        ensures Ids(rest)[i] != es[k].id
      {
        if i < k {
          assert rest[i] == es[i];
        } else {
          assert rest[i] == es[i + 1];
        }
      }
    }
  }

  /** `remove_employee`: an absent id is refused; otherwise the first member
      with that id leaves and the others keep their order. */
  function RemoveEmployee(d: Department, id: int): (r: Result<Department>)
    ensures r.Ok? <==> id in Ids(d.employees)
    ensures r.Err? ==> r.error == ValueError(NotMember)
    ensures r.Ok? ==> r.value.handle == d.handle && r.value.name == d.name
    ensures r.Ok? ==> exists k :: && 0 <= k < |d.employees| && d.employees[k].id == id
                                  && (forall j :: 0 <= j < k ==> d.employees[j].id != id)
                                  && r.value.employees == d.employees[..k] + d.employees[k + 1..]
    ensures r.Ok? && UniqueIds(d.employees) ==>
              UniqueIds(r.value.employees) && id !in Ids(r.value.employees)
              && |r.value.employees| == |d.employees| - 1
  {
    match RemoveById(d.employees, id)
    case None => Err(ValueError(NotMember))
    case Some(rest) => Ok(d.(employees := rest))
  }

  /** `len(department)`. */
  function Size(d: Department): nat {
    |d.employees|
  }

  /** `calculate_total_salary`: the sum of the members' computed salaries. */
  function DepartmentSalary(d: Department): real {
    TotalSalary(d.employees)
  }

  /** Adding a member raises the total by that member's salary. */
  lemma SalaryAfterAdd(d: Department, e: Employee)
    requires AddEmployee(d, e).Ok?
    ensures DepartmentSalary(AddEmployee(d, e).value) == DepartmentSalary(d) + Salary(e)
  {
    TotalSalaryAppend(d.employees, [e]);
    assert [e][..0] == [];
  }

  /** Removing a member lowers the total by that member's salary. */
  lemma SalaryAfterRemove(d: Department, id: int)
    requires RemoveEmployee(d, id).Ok?
    ensures DepartmentSalary(RemoveEmployee(d, id).value) == DepartmentSalary(d) - Salary(FindEmployee(d, id).value)
  {
    var k := IndexOf(d.employees, id).value;
    assert RemoveEmployee(d, id).value.employees == d.employees[..k] + d.employees[k + 1..];
    TotalSalaryWithout(d.employees, k);
  }

  // ---------------------------------------------------------------------
  // Per-type counts

  /** How many of the employees carry this class name. */
  function CountOfType(es: seq<Employee>, t: string): (n: nat)
    ensures n <= |es|
    decreases |es|
  {
    if |es| == 0 then 0
    else CountOfType(es[..|es| - 1], t) + (if TypeName(es[|es| - 1]) == t then 1 else 0)
  }

  /** Some member's class name is `t`. */
  predicate HasType(es: seq<Employee>, t: string) {
    exists i :: 0 <= i < |es| && TypeName(es[i]) == t
  }

  /** `get_employee_count`: the dictionary built by counting each member
      under its class name; a class with no members has no key. */
  function TypeCounts(es: seq<Employee>): (m: map<string, nat>)
    ensures forall t :: t in m <==> HasType(es, t)
    ensures forall t :: t in m ==> m[t] == CountOfType(es, t) > 0
    ensures forall t :: t !in m ==> CountOfType(es, t) == 0
    decreases |es|
  {
    if |es| == 0 then map[]
    else
      var m := TypeCounts(es[..|es| - 1]);
      TypeKeysSnoc(es, m);
      TypeCountsSnoc(es, m);
      m[TypeName(es[|es| - 1]) := (if TypeName(es[|es| - 1]) in m then m[TypeName(es[|es| - 1])] else 0) + 1]
  }

  /** Counting one member more adds its class name to the keys. */
  lemma TypeKeysSnoc(es: seq<Employee>, m: map<string, nat>)
    requires |es| > 0
    requires forall t :: t in m <==> HasType(es[..|es| - 1], t)
    ensures forall u :: u in m || u == TypeName(es[|es| - 1]) <==> HasType(es, u)
  {
    var init := es[..|es| - 1];
    forall u ensures u in m || u == TypeName(es[|es| - 1]) <==> HasType(es, u) {
      if HasType(init, u) {
        var i :| 0 <= i < |init| && TypeName(init[i]) == u;
        assert es[i] == init[i];
      }
      if HasType(es, u) && u != TypeName(es[|es| - 1]) {
        var i :| 0 <= i < |es| && TypeName(es[i]) == u;
        assert init[i] == es[i];
      }
    }
  }

  /** Counting one member more adds one under its class name only. */
  lemma TypeCountsSnoc(es: seq<Employee>, m: map<string, nat>)
    requires |es| > 0
    requires forall t :: t in m ==> m[t] == CountOfType(es[..|es| - 1], t) > 0
    requires forall t :: t !in m ==> CountOfType(es[..|es| - 1], t) == 0
    ensures var t := TypeName(es[|es| - 1]);
            var r := m[t := (if t in m then m[t] else 0) + 1];
            && (forall u :: u in r ==> r[u] == CountOfType(es, u) > 0)
            && (forall u :: u !in r ==> CountOfType(es, u) == 0)
  {
  }

  /** The four per-type counts add up to the department's size. */
  lemma {:induction false} TypeCountsSumToSize(es: seq<Employee>)
    ensures CountOfType(es, "Employee") + CountOfType(es, "Manager")
            + CountOfType(es, "Developer") + CountOfType(es, "Salesperson") == |es|
    decreases |es|
  {
    if |es| > 0 {
      TypeCountsSumToSize(es[..|es| - 1]);
    }
  }

  // ---------------------------------------------------------------------
  // Records

  /** The dictionary a department is saved as; `employees` may be missing. */
  datatype DepartmentRecord = DepartmentRecord(name: string, employees: Option<seq<EmployeeRecord>>)

  /** `_employee_from_dict`: dispatch on the type tag. A missing tag reads as
      "Employee", and any tag other than the three subclass names (including
      a differently-cased one) builds a plain Employee. */
  function DecodeEmployee(r: EmployeeRecord): (res: Result<Employee>)
    ensures res.Ok? ==> Valid(res.value) && res.value.id == r.id
    ensures r.tag == Some("Manager") ==> res == ManagerFromRecord(r)
    ensures r.tag == Some("Developer") ==> res == DeveloperFromRecord(r)
    ensures r.tag == Some("Salesperson") ==> res == SalespersonFromRecord(r)
    ensures r.tag.GetOr("Employee") !in {"Manager", "Developer", "Salesperson"} ==>
              res == NewEmployee(r.id, r.name, r.department, r.baseSalary)
  {
    var tag := r.tag.GetOr("Employee");
    if tag == "Manager" then ManagerFromRecord(r)
    else if tag == "Developer" then DeveloperFromRecord(r)
    else if tag == "Salesperson" then SalespersonFromRecord(r)
    else EmployeeFromRecord(r)
  }

  /** Dispatch restores every valid employee from the record it was saved as. */
  lemma DecodeEncode(e: Employee)
    requires Valid(e)
    ensures DecodeEmployee(ToRecord(e)) == Ok(e)
  {
    ClassRoundTrip(e);
  }

  function EncodeAll(es: seq<Employee>): (rs: seq<EmployeeRecord>)
    ensures |rs| == |es|
    ensures forall i :: 0 <= i < |es| ==> rs[i] == ToRecord(es[i])
  {
    seq(|es|, i requires 0 <= i < |es| => ToRecord(es[i]))
  }

  /** The dictionary `save_to_file` writes. */
  function DepartmentToRecord(d: Department): (r: DepartmentRecord)
    ensures r.name == d.name
    ensures r.employees == Some(EncodeAll(d.employees))
  {
    DepartmentRecord(d.name, Some(EncodeAll(d.employees)))
  }

  /** Rebuilds one record and adds the employee at the end. */
  function AddRecord(d: Department, r: EmployeeRecord): (res: Result<Department>)
    ensures res.Ok? ==> res.value.handle == d.handle && res.value.name == d.name
    ensures res.Ok? ==> |res.value.employees| == |d.employees| + 1
    ensures res.Ok? ==> res.value.employees[..|d.employees|] == d.employees
    ensures res.Ok? ==> res.value.employees[|d.employees|].id == r.id
    ensures res.Ok? && UniqueIds(d.employees) ==> UniqueIds(res.value.employees)
    ensures res.Ok? && ValidDepartment(d) ==> ValidDepartment(res.value)
  {
    var e :- DecodeEmployee(r);
    var d' :- AddEmployee(d, e);
    assert d'.employees[..|d.employees|] == d.employees;
    Ok(d')
  }

  /** Rebuilds and re-adds each record in order; the first record that
      cannot be rebuilt or added stops the load. */
  function AddAll(d: Department, rs: seq<EmployeeRecord>): (r: Result<Department>)
    ensures r.Ok? ==> r.value.handle == d.handle && r.value.name == d.name
    ensures r.Ok? ==> |r.value.employees| == |d.employees| + |rs|
    ensures r.Ok? ==> r.value.employees[..|d.employees|] == d.employees
    ensures r.Ok? ==> Ids(r.value.employees) == Ids(d.employees) + Ids'(rs)
    ensures r.Ok? && UniqueIds(d.employees) ==> UniqueIds(r.value.employees)
    ensures r.Ok? && ValidDepartment(d) ==> ValidDepartment(r.value)
    decreases |rs|
  {
    if |rs| == 0 then Ok(d)
    else
      match AddRecord(d, rs[0])
      case Err(e) => Err(e)
      case Ok(d') =>
        match AddAll(d', rs[1..])
        case Err(e) => Err(e)
        case Ok(d'') =>
          AddAllCons(d.employees, d'.employees, rs, d''.employees);
          Ok(d'')
  }

  /** What the rest of the load keeps of the first member added carries
      over to the list before it. */
  lemma {:induction false} AddAllCons(before: seq<Employee>, mid: seq<Employee>, rs: seq<EmployeeRecord>, after: seq<Employee>)
    requires |rs| > 0 && |mid| == |before| + 1
    requires mid[..|before|] == before && mid[|before|].id == rs[0].id
    requires |mid| <= |after| && after[..|mid|] == mid && Ids(after) == Ids(mid) + Ids'(rs[1..])
    ensures after[..|before|] == before
    ensures Ids(after) == Ids(before) + Ids'(rs)
  {
    PrefixOfPrefix(after, |mid|, |before|);
    assert Ids(mid) == Ids(before) + [rs[0].id] by {
      assert mid == before + [mid[|before|]];
      IdsAppend(before, [mid[|before|]]);
    }
    assert Ids'(rs) == [rs[0].id] + Ids'(rs[1..]);
    Regroup(Ids(before), [rs[0].id], Ids'(rs[1..]));
  }

  lemma PrefixOfPrefix<T>(s: seq<T>, m: nat, n: nat)
    requires n <= m <= |s|
    ensures s[..m][..n] == s[..n]
  {
  }

  lemma Regroup<T>(a: seq<T>, b: seq<T>, c: seq<T>)
    ensures (a + b) + c == a + (b + c)
  {
  }

  lemma IdsAppend(a: seq<Employee>, b: seq<Employee>)
    ensures Ids(a + b) == Ids(a) + Ids(b)
  {
  }

  /** `load_from_file_dict`: a missing employee list reads as empty. */
  function LoadDepartment(handle: nat, r: DepartmentRecord): (res: Result<Department>)
    ensures res.Ok? ==> res.value.handle == handle && res.value.name == r.name
    ensures res.Ok? ==> ValidDepartment(res.value)
    ensures res.Ok? ==> Ids(res.value.employees) == Ids'(r.employees.GetOr([]))
  {
    var d :- NewDepartment(handle, r.name);
    var res := AddAll(d, r.employees.GetOr([]));
    if res.Ok? then
      assert Ids(d.employees) == [];
      res
    else res
  }

  /** The ids of a list of records, in order. */
  function Ids'(rs: seq<EmployeeRecord>): (r: seq<int>)
    ensures |r| == |rs|
    ensures forall i :: 0 <= i < |rs| ==> r[i] == rs[i].id
  {
    seq(|rs|, i requires 0 <= i < |rs| => rs[i].id)
  }

  /** Records with a repeated id never load. */
  lemma LoadRejectsRepeatedIds(handle: nat, r: DepartmentRecord, i: nat, j: nat)
    requires i < j < |r.employees.GetOr([])|
    requires r.employees.GetOr([])[i].id == r.employees.GetOr([])[j].id
    ensures LoadDepartment(handle, r).Err?
  {
  }

  lemma {:induction false} AddAllEncoded(d: Department, es: seq<Employee>)
    requires UniqueIds(d.employees + es)
    requires forall i :: 0 <= i < |es| ==> Valid(es[i])
    ensures AddAll(d, EncodeAll(es)) == Ok(d.(employees := d.employees + es))
    decreases |es|
  {
    if |es| > 0 {
      var rs := EncodeAll(es);
      DecodeEncode(es[0]);
      var all := d.employees + es;
      assert es[0] == all[|d.employees|];
      assert forall k :: 0 <= k < |d.employees| ==> d.employees[k] == all[k];
      assert es[0].id !in Ids(d.employees);
      var d' := d.(employees := d.employees + [es[0]]);
      assert AddEmployee(d, es[0]) == Ok(d');
      assert d'.employees + es[1..] == all;
      assert rs[1..] == EncodeAll(es[1..]);
      AddAllEncoded(d', es[1..]);
    } else {
      assert d.employees + es == d.employees;
    }
  }

  /** Loading a saved department reproduces its name and its members in
      order; only the object identity is new. */
  lemma {:induction false} LoadSaved(d: Department, handle: nat)
    requires ValidDepartment(d)
    ensures LoadDepartment(handle, DepartmentToRecord(d)) == Ok(d.(handle := handle))
  {
    var d0 := Department(handle, d.name, []);
    assert NewDepartment(handle, d.name) == Ok(d0);
    assert [] + d.employees == d.employees;
    AddAllEncoded(d0, d.employees);
    assert AddAll(d0, DepartmentToRecord(d).employees.GetOr([])) == Ok(d.(handle := handle));
  }
}
