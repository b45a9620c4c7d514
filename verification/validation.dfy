/**
 * The error kinds of the system and the shared date-range check
 * (src/app/validation.ts). Instants are milliseconds since the epoch, as
 * `Date.getTime()` gives them; comparing two `Date`s compares those numbers.
 */
module Validation {
  /** The keys of `errorMessages`; a thrown error is identified by its kind. */
  datatype ErrorKind = CheckDatesRangeInvalid | StartEndDatesRangeInvalid | PercentOutOfRange

  /** An operation that returns a value or throws an error of some kind. */
  datatype Result<T> = Ok(value: T) | Err(error: ErrorKind)

  /** The text each kind is thrown with; each text names exactly one kind. */
  function Message(k: ErrorKind): (m: string)
    ensures m == "Check In must be before Check Out" <==> k == CheckDatesRangeInvalid
    ensures m == "Start date must be before end date" <==> k == StartEndDatesRangeInvalid
    ensures m == "Out of range. must be between 0 & 100" <==> k == PercentOutOfRange
  {
    match k
    case CheckDatesRangeInvalid => "Check In must be before Check Out"
    case StartEndDatesRangeInvalid => "Start date must be before end date"
    case PercentOutOfRange => "Out of range. must be between 0 & 100"
  }

  /** Distinct kinds are thrown with distinct messages, so a caller can tell them apart. */
  lemma MessagesDistinct(k1: ErrorKind, k2: ErrorKind)
    ensures Message(k1) == Message(k2) ==> k1 == k2
  {
    if k1 != k2 {
      assert Message(k1)[0] != Message(k2)[0];
    }
  }

  /**
   * `datesValidation`: throws the start/end range error when `start` is after
   * `end`; an empty range (`start == end`) is accepted.
   */
  function DatesValidation(start: int, end: int): (r: Result<()>)
    ensures r.Ok? <==> start <= end
    ensures r.Err? ==> r.error == StartEndDatesRangeInvalid
  {
    if start > end then Err(StartEndDatesRangeInvalid) else Ok(())
  }

  lemma EqualEndpointsAccepted(d: int)
    ensures DatesValidation(d, d) == Ok(())
  {
  }
}
