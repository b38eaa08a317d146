/** The three comparison functions used to sort employees. Each answers -1,
    0 or 1; names and departments are compared in Python's string order
    (`Text.Below`), salaries by the computed salary. Each is a total
    preorder: antisymmetric in sign and transitive.
 */
module Comparators {
  import opened Text
  import opened Employees

  /** -1, 0 or 1 as `a` sorts before, equal to, or after `b`. */
  function CompareText(a: string, b: string): (r: int)
    ensures r == -1 <==> Below(a, b)
    ensures r == 1 <==> Below(b, a)
    ensures r == 0 <==> a == b
    ensures r == -1 || r == 0 || r == 1
  {
    BelowTotal(a, b);
    BelowIrreflexive(a);
    if Below(a, b) then
      BelowAsymmetric(a, b);
      -1
    else if Below(b, a) then 1
    else 0
  }

  /** `compare_by_name`. */
  function CompareByName(a: Employee, b: Employee): (r: int)
    ensures r == -1 <==> Below(a.name, b.name)
    ensures r == 0 <==> a.name == b.name
    ensures r == 1 <==> Below(b.name, a.name)
  {
    CompareText(a.name, b.name)
  }

  /** `compare_by_salary`: by `calculate_salary`, so it agrees with `<` on
      employees. */
  function CompareBySalary(a: Employee, b: Employee): (r: int)
    ensures r == -1 <==> LessPaid(a, b)
    ensures r == 0 <==> Salary(a) == Salary(b)
    ensures r == 1 <==> LessPaid(b, a)
  {
    if Salary(a) < Salary(b) then -1
    else if Salary(a) > Salary(b) then 1
    else 0
  }

  /** `compare_by_department_and_name`: the department decides, and the
      name only breaks a tie between equal departments. */
  function CompareByDepartmentAndName(a: Employee, b: Employee): (r: int)
    ensures a.department != b.department ==> r == CompareText(a.department, b.department)
    ensures a.department == b.department ==> r == CompareByName(a, b)
    ensures r == 0 <==> a.department == b.department && a.name == b.name
  {
    var d := CompareText(a.department, b.department);
    if d != 0 then d else CompareByName(a, b)
  }

  /** Swapping the arguments flips the sign of every comparator. */
  lemma Antisymmetric(a: Employee, b: Employee)
    ensures CompareByName(a, b) == -CompareByName(b, a)
    ensures CompareBySalary(a, b) == -CompareBySalary(b, a)
    ensures CompareByDepartmentAndName(a, b) == -CompareByDepartmentAndName(b, a)
  {
  }

  lemma TextTransitive(x: string, y: string, z: string)
    requires CompareText(x, y) <= 0 && CompareText(y, z) <= 0
    ensures CompareText(x, z) <= 0
    ensures CompareText(x, z) == 0 ==> x == y && y == z
  {
    if x != y && y != z {
      BelowTransitive(x, y, z);
    }
    if x == z && x != y {
      BelowAsymmetric(x, y);
    }
  }

  /** Name order is transitive. */
  lemma NameTransitive(a: Employee, b: Employee, c: Employee)
    requires CompareByName(a, b) <= 0 && CompareByName(b, c) <= 0
    ensures CompareByName(a, c) <= 0
  {
    TextTransitive(a.name, b.name, c.name);
  }

  /** Salary order is transitive. */
  lemma SalaryTransitive(a: Employee, b: Employee, c: Employee)
    requires CompareBySalary(a, b) <= 0 && CompareBySalary(b, c) <= 0
    ensures CompareBySalary(a, c) <= 0
  {
  }

  /** Department-then-name order is transitive. */
  lemma DepartmentAndNameTransitive(a: Employee, b: Employee, c: Employee)
    requires CompareByDepartmentAndName(a, b) <= 0 && CompareByDepartmentAndName(b, c) <= 0
    ensures CompareByDepartmentAndName(a, c) <= 0
  {
    TextTransitive(a.department, b.department, c.department);
    if a.department == b.department == c.department {
      TextTransitive(a.name, b.name, c.name);
    }
  }

  /** Each element sorts no later than the next one. */
  predicate SortedByDepartmentAndName(es: seq<Employee>) {
    forall i :: 0 <= i < |es| - 1 ==> CompareByDepartmentAndName(es[i], es[i + 1]) <= 0
  }

  /** In a list sorted by department then name, every element sorts no
      later than every element after it, so each department's employees
      stand together. */
  lemma {:induction false} SortedIsOrdered(es: seq<Employee>, i: int, j: int)
    requires SortedByDepartmentAndName(es)
    requires 0 <= i <= j < |es|
    ensures CompareByDepartmentAndName(es[i], es[j]) <= 0
    decreases j - i
  {
    if i < j {
      SortedIsOrdered(es, i + 1, j);
      DepartmentAndNameTransitive(es[i], es[i + 1], es[j]);
    }
  }

  /** Consequently an employee of another department never stands between
      two employees of one department. */
  lemma DepartmentsAreContiguous(es: seq<Employee>, i: int, k: int, j: int)
    requires SortedByDepartmentAndName(es)
    requires 0 <= i <= k <= j < |es|
    requires es[i].department == es[j].department
    ensures es[k].department == es[i].department
  {
    SortedIsOrdered(es, i, k);
    SortedIsOrdered(es, k, j);
    if Below(es[i].department, es[k].department) {
      BelowAsymmetric(es[i].department, es[k].department);
    }
  }
}
