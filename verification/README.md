# A verified model of the lab_5 staffing core

This project is a Dafny model of the in-memory staffing model of the lab_5
Python repository, with proofs about it. The model covers:

- employees in four variants, with validated fields and a salary formula
  per variant;
- departments that own their employees, unique by id;
- projects with a team and a four-valued status;
- a company that aggregates departments and projects and answers
  cross-cutting queries: lookup, transfer, assignment, overload detection,
  statistics and budget analysis;
- saving a company as nested records and loading it back, and the two CSV
  reports;
- three small patterns:
  - a tag-keyed construction registry;
  - three bonus formulas behind a swappable calculator;
  - an observer list with ordered broadcast;
- the three employee comparators.

Every operation is a pure function over immutable values. Each one returns
`Result<T>`, which holds either the new value or one `Error`.

- `Error` mirrors the source's exceptions: `ValueError` (with a `Why` that
  says which check failed), `EmployeeNotFound`, `DepartmentNotFound`,
  `ProjectNotFound`, `InvalidStatus` and `DuplicateId`.
- Money and rates are `real`.
- Where the source compares objects by identity, the model gives each
  object a `handle` and compares handles. This covers a department or
  project added to a company twice, and an observer in a subject's list.

The files, one module each:

| file | module | models |
|---|---|---|
| outcomes.dfy | Outcomes | `Option`, `Result`, the error kinds |
| text.dfy | Text | blank strings, ASCII lower-casing, Python's string order |
| dates.dfy | Dates | the `YYYY-MM-DD` deadline: parsing and zero-padded formatting |
| employees.dfy | Employees | the four variants, validation, setters, salaries, `==`, `<`, `+`, records |
| departments.dfy | Departments | department membership, totals, per-type counts, saving and loading |
| projects.dfy | Projects | status, team membership, team budget, records |
| companies.dfy | Companies | the company operations and queries |
| company_records.dfy | CompanyRecords | whole-company save/load with team relinking, CSV rows |
| factories.dfy | Factories | the factory registry |
| bonuses.dfy | Bonuses | the bonus strategies and the calculator |
| observers.dfy | Observers | subject, notification log, e-mail notifier, employee events |
| comparators.dfy | Comparators | the three comparison functions |

Points where the code behaves in a way a reader might not expect, and
which the model follows as written:

- **CSV headers.** The two reports are written with Russian column
  headers (`company.py:397, 417`). The model carries those headers.
- **Transfer is not atomic** (`company.py:219-220`). The employee is removed
  from the source before being added to the target. When the add fails,
  the removal is not undone. `Transfer` returns the state left behind
  together with the error, and `TransferNotAtomic` states the loss.
- **Duplicate employee.** Adding an employee whose id a department or a
  team already holds raises `ValueError` (`department.py:48-49`,
  `project.py:107-108`). The model's error is `ValueError(AlreadyMember)`.
- **Reloaded teams.** When a company is loaded, each saved team id is
  relinked only if some loaded department holds it; other ids are dropped
  without an error (`company.py:368-374`). `SaveLoad` states the result.
- **Errors during loading.** Relinking catches only the two not-found
  errors (`company.py:372-374`). A team record that repeats an id that
  resolves raises `ValueError` and stops the load. A repeated project id
  raises `DuplicateIdError` and stops the load. `Relink` and `LoadProject`
  model both.
- **Status event.** The status-change event carries the employee's id
  and name and the new value, with no old value (`observer.py:212-217`).
- **Years.** A deadline is parsed with `datetime.strptime`
  (`project.py:58-61`), whose smallest year is 1, so year 0000 is rejected.

## Model

| member | source | states |
|---|---|---|
| Text.Lower | lab_5/src/patterns/factory_method.py:132 | lower-casing keeps the length, maps each character to its lower-case form, and leaves no upper-case letter |
| Text.LowerIdempotent | lab_5/src/patterns/factory_method.py:160 | lower-casing an already lower-cased tag changes nothing, so a key stored lower-cased is found again |
| Text.BelowIrreflexive | lab_5/src/utils/comparators.py:19-22 | no string sorts before itself |
| Text.BelowAsymmetric | lab_5/src/utils/comparators.py:19-22 | if a sorts before b, b does not sort before a |
| Text.BelowTransitive | lab_5/src/utils/comparators.py:19-22 | string order is transitive |
| Text.BelowTotal | lab_5/src/utils/comparators.py:19-23 | of two strings, one sorts before the other or they are equal |
| Dates.DaysInMonth | lab_5/src/core/project.py:56-61 | every month has 28 to 31 days, and February has 29 exactly in a leap year |
| Dates.Parse | lab_5/src/core/project.py:56-61 | a deadline parses exactly when it is `YYYY-MM-DD` naming a real calendar date; any other text fails with the deadline validation error |
| Dates.Format | lab_5/src/core/project.py:204 | a date is written as ten characters with dashes at positions 4 and 7 |
| Dates.ParseFormat | lab_5/src/core/project.py:204 | parsing a formatted date gives the date back |
| Dates.FormatParse | lab_5/src/core/project.py:56-61 | formatting a parsed deadline gives back the text it was parsed from |
| Employees.ParseLevel | lab_5/src/employees/developer.py:39-45 | only "junior", "middle" and "senior" are seniority levels, and each parses to the level of that name |
| Employees.ParseLevelName | lab_5/src/employees/developer.py:14-18 | every level's name parses back to the level |
| Employees.BaseViolation | lab_5/src/core/employee.py:28-46 | the first failing check of the constructor, in the order id, then name, then base salary; none fails exactly when all three are valid |
| Employees.NewEmployee | lab_5/src/core/employee.py:13-46 | construction succeeds exactly for id > 0, a non-blank name and base salary >= 0; the department is not checked; a failure names the first failing field |
| Employees.NewManager | lab_5/src/employees/manager.py:13-31 | the inherited checks come first, then a negative bonus fails; success gives exactly the given fields |
| Employees.NewDeveloper | lab_5/src/employees/developer.py:20-52 | the inherited checks come first, then the seniority level, then every stack entry must be non-blank; entries are not deduplicated |
| Employees.NewSalesperson | lab_5/src/employees/salesperson.py:13-44 | the inherited checks come first, then a rate outside [0, 1], then a negative sales volume |
| Employees.SetId | lab_5/src/core/employee.py:53-57 | an id <= 0 is refused; otherwise only the id changes |
| Employees.SetName | lab_5/src/core/employee.py:64-68 | a blank name is refused; otherwise only the name changes |
| Employees.SetDepartment | lab_5/src/core/employee.py:75-80 | a blank department is refused by the setter (unlike the constructor); otherwise only the department changes |
| Employees.SetBaseSalary | lab_5/src/core/employee.py:87-91 | a negative base salary is refused; otherwise only the base salary changes |
| Employees.SetBonus | lab_5/src/employees/manager.py:38-42 | a negative bonus is refused; otherwise only the bonus changes |
| Employees.SetSeniority | lab_5/src/employees/developer.py:64-68 | a name outside the three levels is refused; otherwise only the level changes |
| Employees.AddSkill | lab_5/src/employees/developer.py:70-80 | a blank skill is refused; a present skill leaves the developer unchanged; a new one is appended at the end |
| Employees.SetCommissionRate | lab_5/src/employees/salesperson.py:51-55 | a rate outside [0, 1] is refused; otherwise only the rate changes |
| Employees.SetSalesVolume | lab_5/src/employees/salesperson.py:62-66 | a negative volume is refused; otherwise only the volume changes |
| Employees.UpdateSales | lab_5/src/employees/salesperson.py:68-79 | a negative amount is refused; otherwise the sales volume grows by exactly the amount and nothing else changes |
| Employees.SettersPreserveValid | lab_5/src/core/employee.py:53-91 | every successful setter keeps every field constraint of a valid employee |
| Employees.SalaryBounds | lab_5/src/employees/developer.py:82-90 | a valid employee earns at least its base salary, which is non-negative; a plain employee earns exactly its base, a manager its base plus bonus, a developer at most twice its base |
| Employees.UpdateSalesRaisesSalary | lab_5/src/employees/salesperson.py:81-88 | recording sales raises a salesperson's salary by amount times rate, so never lowers it |
| Employees.SalaryExamples | lab_5/src/employees/manager.py:44-51 | the worked salaries: manager 70000 + 20000, senior developer 2 x 50000, salesperson 40000 + 0.15 x 100000, plain 50000 |
| Employees.EqualityIgnoresVariant | lab_5/src/core/employee.py:113-125 | employees are equal exactly when their ids are equal, whatever their variants, names and salaries; an employee can equal one it earns less than |
| Employees.LessPaidIsStrictWeakOrder | lab_5/src/core/employee.py:127-139 | `<` on employees is irreflexive, asymmetric and transitive, and two employees are incomparable exactly when their salaries are equal |
| Employees.Plus | lab_5/src/core/employee.py:141-153 | `a + b` is what `sum()` gives for the list `[a, b]` |
| Employees.PlusCommutes | lab_5/src/core/employee.py:141-167 | `a + b == b + a`, and adding a third employee to `a + b` gives `sum()` of the three |
| Employees.RPlus | lab_5/src/core/employee.py:155-167 | adding an employee to a number adds its salary, including to the seed 0 |
| Employees.SumIsTotalSalary | lab_5/src/core/employee.py:155-167 | folding a list with `+` from a seed gives the seed plus the sum of the salaries |
| Employees.TotalSalaryAppend | lab_5/src/core/department.py:76-85 | the salary total of two lists joined is the sum of their totals |
| Employees.TotalSalaryWithout | lab_5/src/core/department.py:76-85 | removing one employee lowers the total by exactly its salary |
| Employees.TotalSalaryNonNegative | lab_5/src/core/department.py:76-85 | the total of valid employees is never negative |
| Employees.ToRecord | lab_5/src/core/employee.py:169-182 | the record is tagged with the class name, carries the four inherited fields, and carries exactly the variant's own fields |
| Employees.ClassRoundTrip | lab_5/src/core/employee.py:184-200 | each class's `from_dict` rebuilds a valid employee from its own `to_dict` |
| Employees.FromRecordDefaults | lab_5/src/employees/developer.py:120-138 | missing variant fields default to bonus 0, an empty stack, level junior, rate 0 and volume 0 |
| Departments.NewDepartment | lab_5/src/core/department.py:15-25 | a blank name is refused; otherwise the department is empty and valid |
| Departments.Rename | lab_5/src/core/department.py:32-37 | a blank name is refused; otherwise only the name changes |
| Departments.FindEmployee | lab_5/src/core/department.py:100-113 | the first member with that id, and nothing exactly when no member has it |
| Departments.MemberIffSameId | lab_5/src/core/department.py:48-49 | Python's `in` on a member list, which compares with `__eq__`, finds an equal member exactly when the id is among the members' ids, the test the model uses |
| Departments.AddEmployee | lab_5/src/core/department.py:39-50 | an employee whose id is already present is refused; otherwise it is appended, and ids stay unique |
| Departments.RemoveEmployee | lab_5/src/core/department.py:52-65 | an absent id is refused; otherwise exactly the first member with that id leaves, the others keep their order, and the id is gone when ids were unique |
| Departments.SalaryAfterAdd | lab_5/src/core/department.py:76-85 | adding a member raises the department total by its salary |
| Departments.SalaryAfterRemove | lab_5/src/core/department.py:76-85 | removing a member lowers the department total by its salary |
| Departments.TypeCounts | lab_5/src/core/department.py:87-98 | the keys are exactly the class names present, each mapped to its positive member count |
| Departments.TypeCountsSumToSize | lab_5/src/core/department.py:115-122 | the four per-type counts add up to the department's length |
| Departments.DecodeEmployee | lab_5/src/core/department.py:221-258 | the tags "Manager", "Developer" and "Salesperson" go to that class's `from_dict` with its defaults; a missing tag reads as "Employee", and any other tag builds a plain employee; a success is valid and keeps the id |
| Departments.DecodeEncode | lab_5/src/core/department.py:207-258 | dispatch rebuilds every valid employee from the record it was saved as |
| Departments.EncodeAll | lab_5/src/core/department.py:169 | one record per member, in order |
| Departments.DepartmentToRecord | lab_5/src/core/department.py:167-170 | the saved department is its name and its members' records |
| Departments.AddRecord | lab_5/src/core/department.py:202-204 | a rebuilt record joins at the end, keeping the earlier members, unique ids and validity |
| Departments.AddAll | lab_5/src/core/department.py:201-205 | on success every record added one member, in order, and the ids are the old ids followed by the records' ids |
| Departments.LoadDepartment | lab_5/src/core/department.py:190-205 | a loaded department is valid, has the saved name, and its member ids are the saved ids in order (none when the list is missing) |
| Departments.LoadRejectsRepeatedIds | lab_5/src/core/department.py:202-204 | a record list that repeats an id never loads |
| Departments.AddAllEncoded | lab_5/src/core/department.py:201-205 | re-adding the records of valid employees with fresh ids appends exactly those employees |
| Departments.LoadSaved | lab_5/src/core/department.py:160-205 | loading a saved valid department gives back its name and members in order, with a new identity |
| Projects.ParseStatus | lab_5/src/core/project.py:63-68 | only the four status names are accepted; any other fails with InvalidStatus |
| Projects.ParseStatusName | lab_5/src/core/project.py:16 | every status's name parses back to it |
| Projects.NewProject | lab_5/src/core/project.py:18-68 | checks run in the order id > 0, non-blank name, deadline, legal status, with the matching error; a missing status is "planning"; the description is unchecked; a new project has an empty team |
| Projects.ChangeStatus | lab_5/src/core/project.py:165-176 | any legal status is accepted from any status; an illegal one fails with InvalidStatus; nothing else changes |
| Projects.FindTeamMember | lab_5/src/core/project.py:178-191 | the first team member with that id, and nothing exactly when none has it |
| Projects.AddTeamMember | lab_5/src/core/project.py:95-109 | an employee whose id is already in the team is refused; otherwise it is appended |
| Projects.RemoveTeamMember | lab_5/src/core/project.py:111-124 | an absent id is refused; otherwise exactly the first member with that id leaves and the others keep their order |
| Projects.AddThenRemove | lab_5/src/core/project.py:144-151 | adding a member then removing its id restores the project, and adding raises the team budget by its salary |
| Projects.ProjectToRecord | lab_5/src/core/project.py:193-207 | the record carries the scalars, a deadline that parses back to the date, the status name, and the team's records |
| Projects.ProjectFromRecord | lab_5/src/core/project.py:216-235 | a record loads exactly when its id, name, deadline and status (default "planning") pass the constructor's checks; the loaded project carries the record's scalars and an empty team |
| Projects.ProjectRoundTrip | lab_5/src/core/project.py:193-235 | rebuilding a saved valid project restores id, name, description, deadline and status, with an empty team |
| Projects.MissingStatusIsPlanning | lab_5/src/core/project.py:232 | a record without a status loads as planning |
| Companies.NewCompany | lab_5/src/core/company.py:22-33 | a blank name is refused; otherwise the company is empty |
| Companies.DepartmentIndex | lab_5/src/core/company.py:177-182 | the first department with the name, and nothing exactly when none has it |
| Companies.AddDepartment | lab_5/src/core/company.py:40-54 | only a re-add of the same department object is refused; otherwise it is appended |
| Companies.SameNameDepartments | lab_5/src/core/company.py:50-54 | two distinct departments with the same name are both accepted, and lookup by name finds the first |
| Companies.RemoveDepartment | lab_5/src/core/company.py:56-72 | an unknown name fails with DepartmentNotFound; a non-empty department fails with ValueError; otherwise exactly that department is removed |
| Companies.ProjectIndex | lab_5/src/core/company.py:184-189 | the first project with the id, and nothing exactly when none has it |
| Companies.AddProject | lab_5/src/core/company.py:83-99 | a re-added project object fails with ValueError, then a repeated id with DuplicateId; otherwise it is appended and project ids stay unique |
| Companies.RemoveProject | lab_5/src/core/company.py:101-117 | an unknown id fails with ProjectNotFound; a project with a team fails with ValueError; otherwise exactly that project is removed |
| Companies.RemovedProjectIsGone | lab_5/src/core/company.py:101-117 | with unique project ids, the removed id is no longer present and one project fewer remains |
| Companies.ProjectsByStatus | lab_5/src/core/company.py:165-175 | the result holds exactly the projects with that status; an illegal status gives nothing |
| Companies.FindEmployee | lab_5/src/core/company.py:140-154 | the first employee with that id in company order, department by department, and nothing exactly when no department holds the id |
| Companies.MonthlyCostIsTotalSalary | lab_5/src/core/company.py:156-163 | the sum of the department totals equals the salary total over all employees |
| Companies.Transfer | lab_5/src/core/company.py:191-221 | the source department is checked, then the target, then the employee in the source, leaving the company unchanged on each failure; a success keeps the head-count; the only failure after a change is the target's duplicate, with one employee fewer |
| Companies.TransferMoves | lab_5/src/core/company.py:219-220 | between two different departments, moving a member of the source whose id the target lacks succeeds; the source becomes exactly what removing the id leaves, the target gains the employee at its end, and every other department is unchanged |
| Companies.TransferNotAtomic | lab_5/src/core/company.py:219-220 | when the target already holds the id, the transfer fails after the employee has left the source, and the company has one employee fewer |
| Companies.Assign | lab_5/src/core/company.py:287-311 | a missing employee fails before a missing project; a member already in the team fails with ValueError; otherwise the employee is appended to that project's team only |
| Companies.SlotsAreProjects | lab_5/src/core/company.py:272-276 | with duplicate-free teams, the number of times an id occurs across the teams equals the number of projects that contain it |
| Companies.OverloadedIffUnavailable | lab_5/src/core/company.py:313-325 | an employee is overloaded exactly when it is not available, since teams hold no duplicates |
| Companies.CountIds | lab_5/src/core/company.py:272-276 | the tally has exactly the ids seen as keys, each mapped to its number of occurrences, and lists the ids in first-seen order |
| Companies.PickRepeated | lab_5/src/core/company.py:278-283 | the result keeps, in order, the found employees whose id was counted more than once, and every such employee appears |
| Companies.FindOverloaded | lab_5/src/core/company.py:265-285 | the result holds exactly the department-resident employees whose id is in more than one team, in order of first team appearance |
| Companies.DepartmentStatsMap | lab_5/src/core/company.py:223-237 | the keys are exactly the department names; each name maps to the statistics of the last department with that name |
| Companies.Analyse | lab_5/src/core/company.py:239-263 | the analysis counts all projects, sums all team budgets, and has one bucket per status present, holding that status's count and budget |
| Companies.BucketsAddUp | lab_5/src/core/company.py:239-263 | the four status counts add up to the number of projects and the four budgets to the total budget |
| CompanyRecords.DepartmentsToRecords | lab_5/src/core/company.py:378-385 | one saved record per department, in order |
| CompanyRecords.ProjectsToRecords | lab_5/src/core/company.py:336 | one saved record per project, in order |
| CompanyRecords.SaveCompany | lab_5/src/core/company.py:327-340 | the saved company is its name, every department's record and every project's record |
| CompanyRecords.LoadDepartments | lab_5/src/core/company.py:357-360 | a successful load adds one department per record and leaves the name and the projects alone |
| CompanyRecords.LoadDepartmentsInTurn | lab_5/src/core/company.py:357-360 | a successful load keeps the existing departments and appends, record by record, the department that record loads as |
| CompanyRecords.Relink | lab_5/src/core/company.py:366-374 | re-assigning the saved team ids never changes the company's name, its departments or its project ids |
| CompanyRecords.LoadProject | lab_5/src/core/company.py:363-374 | a loaded project record adds exactly one project, with the saved id, and leaves the departments alone |
| CompanyRecords.RelinkOk | lab_5/src/core/company.py:366-374 | whenever relinking succeeds, the project's team has grown by exactly the employees the saved ids resolve to, and nothing else changed |
| CompanyRecords.LoadProjectAppends | lab_5/src/core/company.py:363-374 | a loaded project record keeps the existing projects and appends one project with the record's scalars and its team resolved from the saved ids |
| CompanyRecords.LoadProjects | lab_5/src/core/company.py:362-374 | each project record adds one project, and the project ids are the saved ids in order |
| CompanyRecords.LoadCompany | lab_5/src/core/company.py:342-376 | a loaded company has the saved non-blank name, one department per saved department and one project per saved project |
| CompanyRecords.Resolve | lab_5/src/core/company.py:366-374 | the relinked team holds only employees some department holds, each carrying one of the saved ids |
| CompanyRecords.RelinkResolves | lab_5/src/core/company.py:366-374 | relinking distinct fresh ids appends exactly the employees they resolve to |
| CompanyRecords.LoadDepartmentsSaved | lab_5/src/core/company.py:357-360 | loading saved valid departments appends them unchanged except for their new identities |
| CompanyRecords.LoadProjectsSaved | lab_5/src/core/company.py:362-374 | loading saved valid projects with unique ids appends them with new identities and their teams rebuilt from the saved ids |
| CompanyRecords.SaveLoad | lab_5/src/core/company.py:327-376 | saving then loading a valid company gives back its name, its departments with their members in order, and its projects with their data, each team rebuilt from the saved ids that still resolve |
| CompanyRecords.FindIgnoresHandles | lab_5/src/core/company.py:140-154 | looking an employee up does not depend on department identities |
| CompanyRecords.ResolveOwnTeam | lab_5/src/core/company.py:366-374 | a team made of the company's own employees survives the round trip unchanged |
| CompanyRecords.EmployeeReport | lab_5/src/core/company.py:387-406 | one row per employee in company order, with id, name, department, class name, base and final salary |
| CompanyRecords.EmployeeReportTotal | lab_5/src/core/company.py:387-406 | the final-salary column adds up to the company's monthly cost |
| CompanyRecords.ProjectReport | lab_5/src/core/company.py:408-426 | one row per project, whose status and deadline columns parse back to the project's own, with team size and team budget |
| Factories.Build | lab_5/src/patterns/factory_method.py:37-101 | each factory calls its variant's constructor with the missing optional parameters defaulted, so a success is of that variant and valid |
| Factories.Create | lab_5/src/patterns/factory_method.py:117-149 | the tag is lower-cased; "employee" builds a plain employee before the registry is consulted; an unregistered tag fails naming the registered ones; any other tag goes to its factory |
| Factories.Register | lab_5/src/patterns/factory_method.py:151-160 | the factory is stored under the lower-cased tag, replacing only that tag's entry |
| Factories.CaseInsensitive | lab_5/src/patterns/factory_method.py:132 | a tag and its lower-cased form build the same thing |
| Factories.ManagerTagExample | lab_5/src/patterns/factory_method.py:132 | "Manager" and "manager" build the same thing |
| Factories.RegisteredTagBuilds | lab_5/src/patterns/factory_method.py:151-160 | a registered factory is reached under any spelling of its tag, except that "employee" still builds a plain employee |
| Factories.RegisterLeavesOtherTags | lab_5/src/patterns/factory_method.py:151-160 | registering one tag changes no other tag's result, apart from the list of known tags an unknown-tag error reports |
| Factories.DefaultRegistryVariants | lab_5/src/patterns/factory_method.py:111-115 | each default tag, in any spelling, builds its own variant |
| Factories.PlainTagBuildsEmployee | lab_5/src/patterns/factory_method.py:134-140 | "employee" builds a plain employee whatever is registered |
| Factories.UnknownTagExample | lab_5/src/patterns/factory_method.py:142-146 | an unknown tag fails, naming the three default tags |
| Factories.DefaultsApplied | lab_5/src/patterns/factory_method.py:47-101 | with only the inherited fields, the factories build a zero-bonus manager, a junior developer with no skills and a salesperson with no commission or sales, each paid its base salary |
| Bonuses.PerformanceBonusOf | lab_5/src/patterns/strategy.py:40-58 | a rating outside [0, 2] fails; otherwise the bonus lies between 0 and 20% of a non-negative base salary |
| Bonuses.SeniorityBonusOf | lab_5/src/patterns/strategy.py:68-87 | negative years fail; otherwise the bonus lies between 0 and half the base salary, and is exactly half from ten years on |
| Bonuses.ProjectBonusOf | lab_5/src/patterns/strategy.py:97-125 | negative counts fail before completed > total does; otherwise the bonus lies between 0 and 8% of the base per project |
| Bonuses.CalculateBonus | lab_5/src/patterns/strategy.py:40-99 | each strategy reads only its own arguments, with the defaults rating 1.0, years 0 and counts 0 |
| Bonuses.SeniorityMonotone | lab_5/src/patterns/strategy.py:81-87 | more years never lower the seniority bonus |
| Bonuses.DefaultBonuses | lab_5/src/patterns/strategy.py:41-99 | without arguments the bonuses are 10% of the base salary, 0 and 0 |
| Bonuses.OnlyBaseSalaryMatters | lab_5/src/patterns/strategy.py:53-125 | every bonus depends on the base salary alone, never on the variant or any other field |
| Bonuses.SetStrategy | lab_5/src/patterns/strategy.py:144-151 | setting a strategy replaces whatever was held |
| Bonuses.Calculate | lab_5/src/patterns/strategy.py:153-170 | without a strategy the calculator fails with ValueError; otherwise it gives exactly the held strategy's bonus |
| Bonuses.SwitchStrategy | lab_5/src/patterns/strategy.py:144-170 | after a switch only the new strategy decides the bonus |
| Bonuses.BonusExamples | lab_5/src/patterns/strategy.py:53-125 | a base of 100 000 gives 15 000 at rating 1.5, 40 000 at eight years, 50 000 at twenty years, and 30 000 for five projects with three completed |
| Observers.Update | lab_5/src/patterns/observer.py:86-100 | the log appends one entry with the event and payload; the notifier appends one e-mail to its own address whose subject names the event |
| Observers.Attach | lab_5/src/patterns/observer.py:42-50 | an attached observer is not added again; a new one is appended; the list stays duplicate-free |
| Observers.Detach | lab_5/src/patterns/observer.py:52-60 | detaching an absent observer changes nothing; otherwise its entry is removed, the others keep their order, and it is no longer listed |
| Observers.AttachIdempotent | lab_5/src/patterns/observer.py:42-50 | attaching twice is attaching once |
| Observers.AttachThenDetach | lab_5/src/patterns/observer.py:42-60 | attaching a new observer and detaching it restores the list |
| Observers.Notify | lab_5/src/patterns/observer.py:62-71 | the observers are called in list order; each listed observer receives the event exactly once and unlisted ones are untouched |
| Observers.DetachedHearsNothing | lab_5/src/patterns/observer.py:52-71 | after a detach the observer hears nothing, while every other observer hears the event once |
| Observers.ByType | lab_5/src/patterns/observer.py:142-152 | the filtered log holds exactly the entries of that type |
| Observers.ByTypeAppend | lab_5/src/patterns/observer.py:142-152 | logging one more entry extends the filtered view by it when it has the type, and otherwise leaves the view alone |
| Observers.ByTypeIdempotent | lab_5/src/patterns/observer.py:142-152 | filtering a filtered log again by the same type changes nothing |
| Observers.ClearNotifications | lab_5/src/patterns/observer.py:138-140 | clearing empties the log |
| Observers.ClearThenUpdate | lab_5/src/patterns/observer.py:138-140 | after a clear the log holds exactly what was delivered since |
| Observers.SalaryPayload | lab_5/src/patterns/observer.py:173-187 | the salary event carries the employee's id and name, the old and the new salary |
| Observers.DepartmentPayload | lab_5/src/patterns/observer.py:189-203 | the department event carries the employee's id and name, the old and the new department |
| Observers.StatusPayload | lab_5/src/patterns/observer.py:205-217 | the status event carries the employee's id and name and the new status, with no old value |
| Observers.SalaryChangeLogged | lab_5/src/patterns/observer.py:173-187 | a salary change reaches an attached log as one salary entry, and the log's department entries are untouched |
| Observers.StatusChangeMailed | lab_5/src/patterns/observer.py:237-253 | an attached e-mail notifier records one message per event, to its own address and tagged with the event type |
| Comparators.CompareText | lab_5/src/utils/comparators.py:19-23 | -1, 0 or 1 exactly as the first string sorts before, equals, or sorts after the second |
| Comparators.CompareByName | lab_5/src/utils/comparators.py:6-23 | -1, 0 or 1 by name order, and 0 exactly when the names are equal |
| Comparators.CompareBySalary | lab_5/src/utils/comparators.py:26-43 | -1, 0 or 1 by computed salary, agreeing with `<` on employees |
| Comparators.CompareByDepartmentAndName | lab_5/src/utils/comparators.py:46-66 | the department decides, and the name breaks a tie only between equal departments |
| Comparators.Antisymmetric | lab_5/src/utils/comparators.py:6-66 | swapping the arguments flips the sign of every comparator |
| Comparators.NameTransitive | lab_5/src/utils/comparators.py:6-23 | name order is transitive |
| Comparators.SalaryTransitive | lab_5/src/utils/comparators.py:26-43 | salary order is transitive |
| Comparators.DepartmentAndNameTransitive | lab_5/src/utils/comparators.py:46-66 | department-then-name order is transitive |
| Comparators.SortedIsOrdered | lab_5/src/utils/comparators.py:46-66 | in a list sorted by department then name, every element sorts no later than every element after it |
| Comparators.DepartmentsAreContiguous | lab_5/src/utils/comparators.py:46-66 | in such a list, no employee of another department stands between two employees of one department |

## Left out

- **Files, JSON and CSV.** File reading and writing, JSON text and CSV
  quoting are external I/O. Saving and loading are modelled as records,
  and the reports as rows.
- **The database.** The sqlite connection singleton is external I/O, and
  the core does not use it.
- **Demos.** The console demos and the interactive main loop are
  user-facing scripts.
- **Rendering.** `get_info`, `__str__`, `get_project_info` and the
  printing in the observers produce free-form text and console output.
- **Notification timestamps.** The wall-clock timestamp of a log entry and
  the body of an e-mail are not modelled.
- **Type checks.** The `isinstance` checks raise `TypeError`; they cannot
  fail once the employee type is closed.
- **Serialiser fallbacks.** The `hasattr`/`getattr` fallback serialisers
  cannot be reached with the closed type either.
- **Missing record keys.** A required record key that is missing raises
  `KeyError`. Records here always carry their required fields.
- **Team record without an id.** A team record without an id is skipped in
  the source. Here every record carries an id, and a zero id is skipped.
- **Missing keyword arguments.** A factory given no id, name, department or
  base salary passes `None` to the constructor. Here these four are always
  given.
- **Factory classes.** Factory classes defined outside the repository are
  not modelled: a registry maps tags to the three concrete factories.
- **Class-level registry.** The registry is a class-level dictionary shared
  by the whole program. Here it is a value that `Register` returns updated.
- **Shared objects.** A department and a project team share employee
  objects, so a later in-place change is seen by both. The model keeps
  employee values, and only the reload's relinking by id is modelled.
- **Floating point.** Money and rates are `real`, so IEEE rounding is not
  modelled.
- **Lower-casing.** Python's `lower()` is Unicode-aware. `Text.Lower` only
  lower-cases ASCII letters.
- Dates.Parse: accepts only the zero-padded ASCII form. Python's
  `strptime` with `%Y-%m-%d` also accepts one-digit months and days, a
  space-padded day such as `"2024-01- 5"`, and decimal digits of any
  Unicode script, such as Arabic-Indic digits, where `%Y` and `%d` match
  `\d`. The model recognises only the ASCII digits.
- **Re-exports.** The `employee_factory` delegation, the pattern package's
  re-exports, the abstract base class and the exception classes add no
  behaviour. They are folded into the registry, the `Employee` datatype
  and the `Error` datatype.
- Companies.ProjectsByStatus: does not state that the filter keeps the
  projects' order.
- Companies.TransferMoves: states the resulting department lists only
  for two different departments. Transferring within one department moves
  the employee to its end, and that case is covered only by
  `Companies.Transfer`'s head-count clause.
- Companies.DepartmentStatsMap: returns a map, so the order of the
  Python dict's keys is not stated. That dict keeps each name at the
  position where it was first inserted, while the last department with
  that name supplies the values.
- Companies.Analyse: returns `by_status` as a map, so the order of that
  dict's keys is not stated. In the source the statuses appear in the
  order of the first project that has each status.
- Observers.Notify: states each observer's new state only for a list
  without duplicates. `Observers.Attach` never creates duplicates.
- CompanyRecords.SaveLoad: is stated for valid companies, whose
  departments and projects satisfy their invariants and whose project ids
  are unique.
- CompanyRecords.LoadCompany: states only the shape of the result. The
  contents are given by `CompanyRecords.SaveLoad` for saved valid
  companies.
- CompanyRecords.Relink: states only what relinking leaves alone. The
  resulting team is stated by `CompanyRecords.RelinkOk` for every
  successful relink, and `CompanyRecords.RelinkResolves` states when
  relinking succeeds.
- CompanyRecords.LoadDepartments: states only the shape of the result.
  The contents are stated by `CompanyRecords.LoadDepartmentsInTurn`.
- CompanyRecords.LoadProject: states only the shape of the result. The
  contents are stated by `CompanyRecords.LoadProjectAppends`.
- CompanyRecords.Resolve: states only that the team comes from the
  departments and the saved ids. `CompanyRecords.ResolveOwnTeam` states
  that a team of the company's own employees is rebuilt exactly.
