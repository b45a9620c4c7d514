/**
 * The JavaScript twin of the date-range check (src/app/validation.js). Its
 * `errorMessages` knows only the two date kinds.
 */
module ValidationJs {
  import Validation

  datatype JsErrorKind = CheckDatesRangeInvalid | StartEndDatesRangeInvalid

  /** `datesValidation` returns nothing or throws. */
  datatype Outcome = Pass | Fail(error: JsErrorKind)

  /** The text each kind is thrown with; each text names exactly one kind. */
  function Message(k: JsErrorKind): (m: string)
    ensures m == "Check In must be before Check Out" <==> k == CheckDatesRangeInvalid
    ensures m == "Start date must be before end date" <==> k == StartEndDatesRangeInvalid
  {
    match k
    case CheckDatesRangeInvalid => "Check In must be before Check Out"
    case StartEndDatesRangeInvalid => "Start date must be before end date"
  }

  function DatesValidation(start: int, end: int): (r: Outcome)
    ensures r.Fail? <==> start > end
    ensures r.Fail? ==> r.error == StartEndDatesRangeInvalid
  {
    if start > end then Fail(StartEndDatesRangeInvalid) else Pass
  }

  /** Both validators reject the same pairs, with the same message. */
  lemma AgreesWithTypeScript(start: int, end: int)
    ensures DatesValidation(start, end).Pass? <==> Validation.DatesValidation(start, end).Ok?
    ensures DatesValidation(start, end).Fail? ==>
      Message(DatesValidation(start, end).error) == Validation.Message(Validation.DatesValidation(start, end).error)
  {
  }
}
