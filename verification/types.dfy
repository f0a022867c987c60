/**
  Shared vocabulary of the grading application: an optional value (PHP's
  nullable types and JavaScript's `null`) and the identities of the three
  persisted entities.
 */
module Types {

  /** A nullable value: `None` stands for PHP/JavaScript `null`. */
  datatype Option<+T> = None | Some(value: T) {

    /** The wrapped value, or `default` when there is none. */
    function GetOr(default: T): T {
      match this
      case Some(v) => v
      case None => default
    }
  }

  /** Identity of a user row (teachers, students and admins share one table). */
  type UserId = nat

  /** Identity of a course row. */
  type CourseId = nat

  /**
    Identity of an evaluation object. The database id assigned on flush is
    modelled as the identity of the object itself.
   */
  type EvalId = nat
}
