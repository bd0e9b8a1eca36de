/**
  The ExchangeRequest schema: two required e-mail addresses that the schema
  trims and lower-cases before validating, a message defaulting to '' and a
  status from the enum defaulting to pending.
*/
module ExchangeRequestModel {
  import opened Wrappers
  import opened JsString
  import opened StatusEnum

  datatype ExchangeRequest = ExchangeRequest(fromEmail: string, toEmail: string, message: string, status: Status)

  /** The schema's `trim: true, lowercase: true` setters, applied in that order. */
  function NormaliseEmail(s: string): (r: string)
    ensures IsTrimmed(r) && |r| <= |s|
    ensures forall i :: 0 <= i < |r| ==> !('A' <= r[i] <= 'Z')
  {
    Lower(Trim(s))
  }

  /**
    The stored address is the trimmed input with each capital A-Z replaced by
    its lower-case letter and every other character kept.
  */
  lemma NormaliseEmailValue(s: string)
    ensures var r, t := NormaliseEmail(s), Trim(s);
      && |r| == |t|
      && (forall i :: 0 <= i < |t| && !('A' <= t[i] <= 'Z') ==> r[i] == t[i])
      && (forall i :: 0 <= i < |t| && 'A' <= t[i] <= 'Z' ==> r[i] as int == t[i] as int + 32)
  {
    LowerValue(Trim(s));
  }

  /** The setters run on every assignment, so a stored address is already normal. */
  lemma NormaliseEmailIdempotent(s: string)
    ensures NormaliseEmail(NormaliseEmail(s)) == NormaliseEmail(s)
  {
    var t := NormaliseEmail(s);
    TrimTrimmed(t);
    assert Lower(t) == t;
  }

  /** A required String fails validation when undefined or, after the setters, empty. */
  predicate RequiredEmail(e: Option<string>) {
    e.Some? && NormaliseEmail(e.value) != []
  }

  /**
    `ExchangeRequest.create({fromEmail, toEmail, message, status})`: the setters,
    the defaults, then validation; None is a validation error, so nothing is stored.
  */
  function NewRequest(fromEmail: Option<string>, toEmail: Option<string>, message: Option<string>, status: Option<string>)
    : (r: Option<ExchangeRequest>)
    ensures r.Some? <==> RequiredEmail(fromEmail) && RequiredEmail(toEmail) && (status.None? || Parse(status).Some?)
    ensures r.Some? ==>
      && r.value.fromEmail == NormaliseEmail(fromEmail.value)
      && r.value.toEmail == NormaliseEmail(toEmail.value)
      && r.value.fromEmail != [] && r.value.toEmail != []
    ensures r.Some? ==> r.value.message == (if message.Some? then message.value else "")
    ensures r.Some? && status.None? ==> r.value.status == Pending
    ensures r.Some? && status.Some? ==> Name(r.value.status) == status.value
  {
    if !RequiredEmail(fromEmail) || !RequiredEmail(toEmail) then None
    else if status.Some? && Parse(status).None? then None
    else
      Some(ExchangeRequest(
        NormaliseEmail(fromEmail.value),
        NormaliseEmail(toEmail.value),
        message.GetOr(""),
        if status.Some? then Parse(status).value else Pending))
  }

  /**
    An address made only of whitespace is truthy, so it passes a handler's
    `!fromEmail` check, but it trims to '' and the schema then refuses it.
  */
  lemma WhitespaceEmailRefused(e: string, other: Option<string>, message: Option<string>, status: Option<string>)
    requires e != [] && forall i :: 0 <= i < |e| ==> IsWhitespace(e[i])
    ensures Truthy(Some(e))
    ensures NewRequest(Some(e), other, message, status).None?
    ensures NewRequest(other, Some(e), message, status).None?
  {
    TrimEmptyIff(e);
  }
}
