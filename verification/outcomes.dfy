/** Failure-compatible wrappers and the single error type of the staffing model.

    The source raises five domain exceptions (EmployeeNotFoundError,
    DepartmentNotFoundError, ProjectNotFoundError, InvalidStatusError,
    DuplicateIdError) and a plain ValueError for validation, duplicate
    members and non-empty removals. They become the constructors of `Error`;
    a ValueError carries a `Why` saying which check raised it, so the order
    in which an operation runs its checks is visible in its result.
 */
module Outcomes {

  /** The field whose validation failed. */
  datatype Field =
    | IdField | NameField | DepartmentField | BaseSalaryField
    | BonusField | SeniorityField | TechStackField | SkillField
    | CommissionRateField | SalesVolumeField | NewSalesField
    | DepartmentNameField | CompanyNameField
    | ProjectIdField | ProjectNameField | DeadlineField

  /** Why a ValueError was raised. */
  datatype Why =
    | Invalid(field: Field)           // a field value broke its constraint
    | AlreadyMember                   // an equal-id employee is already in the department or team
    | NotMember                       // no employee with that id in the department or team
    | HasEmployees                    // removing a department that still has employees
    | HasTeam                         // removing a project whose team is not empty
    | DepartmentAlreadyAdded          // the same department object added twice
    | ProjectAlreadyAdded             // the same project object added twice
    | UnknownType(known: set<string>) // registry lookup on an unregistered tag
    | NoStrategy                      // bonus calculator without a strategy
    | RatingOutOfRange                // performance rating outside [0, 2]
    | NegativeYears                   // negative years of service
    | NegativeProjects                // negative project counts
    | CompletedExceedsTotal           // more completed projects than projects

  datatype Error =
    | ValueError(why: Why)
    | EmployeeNotFound
    | DepartmentNotFound
    | ProjectNotFound
    | InvalidStatus
    | DuplicateId

  datatype Option<+T> = None | Some(value: T) {
    function GetOr(default: T): T {
      match this
      case Some(v) => v
      case None => default
    }
  }

  /** The outcome of an operation that may raise. */
  datatype Result<+T> = Ok(value: T) | Err(error: Error) {
    predicate IsFailure() {
      Err?
    }

    function PropagateFailure<U>(): Result<U>
      requires Err?
    {
      Err(error)
    }

    function Extract(): T
      requires Ok?
    {
      value
    }
  }
}
