/**
  The GigApplication schema: a required gig reference and applicant e-mail,
  a message defaulting to '' and a status from the enum defaulting to pending.
  Gig ids are the store's natural-number ids.
*/
module GigApplicationModel {
  import opened Wrappers
  import opened JsString
  import opened StatusEnum

  datatype GigApplication = GigApplication(gigId: nat, applicantEmail: string, message: string, status: Status)

  /** `GigApplication.create({gigId, applicantEmail, message})`; None is a validation error. */
  function NewApplication(gigId: Option<nat>, applicantEmail: Option<string>, message: Option<string>): (r: Option<GigApplication>)
    ensures r.Some? <==> gigId.Some? && Truthy(applicantEmail)
    ensures r.Some? ==> r.value.gigId == gigId.value && r.value.applicantEmail == applicantEmail.value
    ensures r.Some? ==> r.value.message == (if message.Some? then message.value else "")
    ensures r.Some? ==> r.value.status == Pending
  {
    if gigId.None? || !Truthy(applicantEmail) then None
    else Some(GigApplication(gigId.value, applicantEmail.value, message.GetOr(""), Pending))
  }
}
