/**
 * The `generate_schedule` management command. Its `handle` repeats the body
 * of the service function step for step (same clear, validator, variables,
 * constraints, objective and save) with two differences: a failed validation
 * or solve is written to stderr and `handle` returns instead of raising, and
 * the solver gets 60 seconds instead of 180 (the time limit is not modelled).
 * The model therefore runs the same pipeline and adds the report line.
 */
module ManagementCommand {
  import opened Common
  import opened Validator
  import opened Tables
  import opened Scheduler

  /**
   * The last line `handle` writes: the success line on stdout or the failure
   * line on stderr; `None` when a `TypeError` escapes `handle` and no line is written.
   */
  function Report(r: RunResult): (line: Option<string>)
    ensures r.Generated? <==> line == Some("Balanced schedule generated successfully.")
    ensures r.ValidationFailed? <==> line == Some("Data validation failed. Fix errors and rerun.")
    ensures r.NoSolution? <==> line == Some("No solution found.")
    ensures line.None? <==> r.CapacitySumFailed? || r.WeeklyLoadFailed?
  {
    match r
    case Generated(_) => Some("Balanced schedule generated successfully.")
    case ValidationFailed(_) => Some("Data validation failed. Fix errors and rerun.")
    case NoSolution(_) => Some("No solution found.")
    case CapacitySumFailed => None
    case WeeklyLoadFailed => None
  }

  /**
   * `Command.handle`: a failed validation or a failed solve returns normally
   * with a line on stderr; a non-number capacity raises out of `handle`. The
   * lessons are cleared first, so after any failed run the table is empty.
   */
  method Handle(table: LessonTable, snap: Snapshot, sol: Solution) returns (result: RunResult, line: Option<string>)
    modifies table
    requires table.Valid() && SolverContract(snap, sol)
    ensures table.Valid()
    ensures result == Outcome(snap, sol) && line == Report(result)
    ensures Rows(table.lessons) == LessonsAfterAsWritten(Rows(old(table.lessons)), snap, sol)
    ensures !result.Generated? ==> table.lessons == []
  {
    result := GenerateSchedule(table, snap, sol);
    line := Report(result);
  }
}
