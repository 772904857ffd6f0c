/** The violations a validation run reports. */
module Reports {
  datatype Violation = Violation(
    code: string,
    repository: string,
    workflow: string,
    job: string,
    callee: string,
    field: string,
    message: string)

  class Report {
    var violations: seq<Violation>

    constructor ()
      ensures violations == []
    {
      violations := [];
    }

    method Append(violation: Violation)
      modifies this
      ensures violations == old(violations) + [violation]
    {
      violations := violations + [violation];
    }
  }
}
