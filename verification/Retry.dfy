/** The two bounded retry loops around a serializable transaction. */
module Retry {
  import opened Prelude

  const MAX_SERIALIZABLE_ATTEMPTS := 3

  const RETRYABLE_TRANSACTION_CODES := {"40001", "40P01"}

  /** A business exception, or a driver error with its SQLSTATE where it has one. */
  datatype Fault = Business(error: Error) | Driver(code: Option<string>)

  /** What one attempt at the transaction comes to; a fault rolls everything back. */
  datatype Attempt<T> = Commits(value: T) | Faults(fault: Fault)

  predicate IsRetryableTransactionError(fault: Fault) {
    fault.Driver? && fault.code.Some? && fault.code.value in RETRYABLE_TRANSACTION_CODES
  }

  predicate Retryable<T>(attempt: Attempt<T>) {
    attempt.Faults? && IsRetryableTransactionError(attempt.fault)
  }

  function AsResult<T>(attempt: Attempt<T>): Result<T, Fault> {
    match attempt
    case Commits(value) => Success(value)
    case Faults(fault) => Failure(fault)
  }

  /**
   The number of attempts made: all but the last were aborted, and the last was aborted only if it was the third.
   An aborted attempt leaves no trace, so who gets a value saw one commit, and who gets an exception saw none.
   */
  ghost predicate Made<T>(attempts: seq<Attempt<T>>, used: nat) {
    && 1 <= used <= MAX_SERIALIZABLE_ATTEMPTS <= |attempts|
    && (forall i | 0 <= i < used - 1 :: Retryable(attempts[i]))
    && (used < MAX_SERIALIZABLE_ATTEMPTS ==> !Retryable(attempts[used - 1]))
  }

  /** The shared loop: an exhausted budget is a conflict. */
  method RunSerializableWithRetry<T>(attempts: seq<Attempt<T>>) returns (r: Result<T, Fault>, used: nat)
    requires |attempts| >= MAX_SERIALIZABLE_ATTEMPTS
    ensures Made(attempts, used)
    ensures r == if Retryable(attempts[used - 1]) then Failure(Business(Conflict)) else AsResult(attempts[used - 1])
  {
    var attempt := 1;
    while attempt <= MAX_SERIALIZABLE_ATTEMPTS
      invariant 1 <= attempt <= MAX_SERIALIZABLE_ATTEMPTS
      invariant forall i | 0 <= i < attempt - 1 :: Retryable(attempts[i])
    {
      used := attempt;
      match attempts[attempt - 1] {
        case Commits(value) =>
          return Success(value), used;
        case Faults(fault) =>
          if !IsRetryableTransactionError(fault) {
            return Failure(fault), used;
          }
          if attempt >= MAX_SERIALIZABLE_ATTEMPTS {
            return Failure(Business(Conflict)), used;
          }
      }
      attempt := attempt + 1;
    }
  }

  /** The loop of the deposit service: the third abort is passed on as it is. */
  method RunWithSerializationRetry<T>(attempts: seq<Attempt<T>>) returns (r: Result<T, Fault>, used: nat)
    requires |attempts| >= MAX_SERIALIZABLE_ATTEMPTS
    ensures Made(attempts, used)
    ensures r == AsResult(attempts[used - 1])
  {
    var attempt := 0;
    while attempt < 3
      invariant 0 <= attempt < 3
      invariant forall i | 0 <= i < attempt :: Retryable(attempts[i])
    {
      used := attempt + 1;
      match attempts[attempt] {
        case Commits(value) =>
          return Success(value), used;
        case Faults(fault) =>
          if !IsRetryableTransactionError(fault) || attempt == 2 {
            return Failure(fault), used;
          }
      }
      attempt := attempt + 1;
    }
  }
}
