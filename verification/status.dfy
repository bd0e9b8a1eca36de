/**
  The status enum shared by exchange requests and gig applications:
  `['pending', 'accepted', 'rejected']`, checked both by the schemas and by the
  PATCH handlers before anything is loaded.
*/
module StatusEnum {
  import opened Wrappers

  datatype Status = Pending | Accepted | Rejected

  /** The string stored in the document. */
  function Name(s: Status): string {
    match s
    case Pending => "pending"
    case Accepted => "accepted"
    case Rejected => "rejected"
  }

  /** `allowed.includes(status)`, and which member of the enum it names. */
  function Parse(s: Option<string>): (r: Option<Status>)
    ensures r.Some? <==> s.Some? && s.value in {"pending", "accepted", "rejected"}
    ensures r.Some? ==> Name(r.value) == s.value
  {
    if s == Some("pending") then Some(Pending)
    else if s == Some("accepted") then Some(Accepted)
    else if s == Some("rejected") then Some(Rejected)
    else None
  }

  /** The stored name of a status parses back to that status. */
  lemma ParseName(st: Status)
    ensures Parse(Some(Name(st))) == Some(st)
  {
  }

  /** The edge on which the receiver's completed-exchanges counter moves: anything but accepted, to accepted. */
  predicate FirstAcceptance(previous: Status, next: Status) {
    previous != Accepted && next == Accepted
  }
}
