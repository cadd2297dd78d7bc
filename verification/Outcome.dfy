/** The result of a call that may raise. */
module Outcome {

  /** Why a call raises: what the services check, and what the model classes and the database refuse. */
  datatype Error =
    | NotFound | WrongStatus | BadFinalStatus | NoRole | NotEligible
    | AlreadyVoted | AlreadyAssigned | VetoNotActive | Outranked
    | InvalidField   // a text outside the length its model class allows
    | DuplicateKey   // a primary key already in use
    | MultipleRows   // a single-row lookup that meets two rows

  datatype Result<+T> = Success(value: T) | Failure(error: Error) {

    predicate IsFailure() {
      Failure?
    }

    function PropagateFailure<U>(): Result<U>
      requires Failure?
    {
      Failure(error)
    }

    function Extract(): T
      requires Success?
    {
      value
    }
  }
}
