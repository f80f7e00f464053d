/** src/errors/DataValidationError.ts: an AppError whose message is always
    "Validation Error", whose status is 422 unless the caller gives one, and
    whose `errors` map sends every failing path of a mongoose validation
    error to that path's message. */
module DataValidationErrors {
  import opened Common
  import opened AppErrors

  const DefaultStatus := 422

  /** The field map the constructor builds: each failing path sent to its
      message. */
  function FieldMessages(cause: map<string, FieldError>): (m: map<string, string>)
    ensures m.Keys == cause.Keys
  {
    map f | f in cause :: cause[f].message
  }

  /** The constructor: a loop over the paths of `cause` that writes one entry
      per path into the field map. */
  method NewDataValidationError(cause: map<string, FieldError>, status: Option<int>) returns (e: Error)
    ensures e.DataValidationError? && e.IsAppError()
    ensures e.Message() == ValidationMessage
    ensures e.status == (if status.Some? then status.value else DefaultStatus)
    ensures e.fields.Keys == cause.Keys
    ensures forall f :: f in e.fields ==> e.fields[f] == cause[f].message
    ensures e == DataValidationError(if status.Some? then status.value else DefaultStatus, FieldMessages(cause))
  {
    var errors: map<string, string> := map[];
    var remaining := cause.Keys;
    while remaining != {}
      invariant remaining <= cause.Keys
      invariant errors.Keys == cause.Keys - remaining
      invariant forall f :: f in errors ==> errors[f] == cause[f].message
      decreases remaining
    {
      var f :| f in remaining;
      errors := errors[f := cause[f].message];
      remaining := remaining - {f};
    }
    e := DataValidationError(if status.Some? then status.value else DefaultStatus, errors);
  }
}
