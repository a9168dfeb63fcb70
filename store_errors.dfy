/**
 * How the controllers turn a failed `query` into an HTTP status, and the
 * message that the query wrapper actually throws.
 */
module StoreErrors {
  import opened JsValues

  /** The MySQL text of a foreign-key violation, searched for in error messages. */
  const ForeignKeyViolation := "Cannot add or update a child row"

  /** The one message `query` throws, whatever the driver reported. */
  const QueryFailedMessage := "Database query failed"

  /** What a controller's catch block makes of a store error. */
  datatype ErrorClass = RelationError | InternalError {
    /** 404 for a missing referenced row, 500 for everything else. */
    function Status(): nat {
      match this
      case RelationError => 404
      case InternalError => 500
    }
  }

  /**
   * `errorMessage.includes('Cannot add or update a child row')`: a relation
   * error exactly when the phrase occurs somewhere in the message.
   */
  function Classify(message: string): (c: ErrorClass)
    ensures c == RelationError <==> exists i :: OccursAt(message, ForeignKeyViolation, i)
    ensures c.Status() == 404 || c.Status() == 500
  {
    if Includes(message, ForeignKeyViolation) then RelationError else InternalError
  }

  /** `query` catches the driver's error and throws a fresh one with a fixed message. */
  function WrapDriverError(driverMessage: string): string {
    QueryFailedMessage
  }

  /**
   * The wrapper the controllers' catch blocks are written for: the driver's
   * error reaches them with its own message.
   */
  function RethrowDriverError(driverMessage: string): (m: string)
    ensures Includes(driverMessage, ForeignKeyViolation) ==> Classify(m) == RelationError
    ensures !Includes(driverMessage, ForeignKeyViolation) ==> Classify(m) == InternalError
  {
    driverMessage
  }

  /** The report MySQL gives for an unknown referenced row. */
  const DriverForeignKeyReport := ForeignKeyViolation + ": a foreign key constraint fails"

  /**
   * A concrete input on which the two wrappers disagree: the foreign-key
   * report is answered 500 through the wrapper as written, and 404 through
   * the rethrowing one.
   */
  lemma ForeignKeyReportIsLost()
    ensures Classify(WrapDriverError(DriverForeignKeyReport)).Status() == 500
    ensures Classify(RethrowDriverError(DriverForeignKeyReport)).Status() == 404
  {
    WrappedErrorsAreInternal(DriverForeignKeyReport);
    assert ForeignKeyViolation <= DriverForeignKeyReport;
  }

  /**
   * Because of the wrapper, whatever the driver reports reaches the
   * controllers as an internal error: their 404 branch for a missing
   * referenced row is never taken.
   */
  lemma WrappedErrorsAreInternal(driverMessage: string)
    ensures Classify(WrapDriverError(driverMessage)) == InternalError
    ensures Classify(WrapDriverError(driverMessage)).Status() == 500
  {
    IncludesNeedsRoom(QueryFailedMessage, ForeignKeyViolation);
  }
}
