/**
  /api/gig-applications: apply to a gig, list applications by gig, by
  applicant or all, and set an application's status. Creating an application
  checks neither that the gig exists, nor that the applicant is not its
  owner, nor that the applicant has not applied before; no handler here
  touches a profile.
*/
module GigApplicationRoutes {
  import opened Wrappers
  import opened JsString
  import opened StatusEnum
  import opened GigApplicationModel
  import opened Db

  /** POST /. */
  method Create(db: Store, gigId: Option<nat>, applicantEmail: Option<string>, message: Option<string>)
    returns (r: Response<Doc<GigApplication>>)
    requires db.Valid()
    modifies db
    ensures db.Valid()
    ensures r.BadRequest? <==> gigId.None? || !Truthy(applicantEmail)
    ensures !r.Ok? ==> r.BadRequest? && unchanged(db)
    ensures r.Ok? ==>
      && r.value.body == GigApplication(gigId.value, applicantEmail.value, message.GetOr(""), Pending)
      && r.value.id == old(db.clock) && db.clock == old(db.clock) + 1
      && db.applications == old(db.applications) + [r.value]
    ensures db.profiles == old(db.profiles)
    ensures db.gigs == old(db.gigs) && db.entries == old(db.entries) && db.requests == old(db.requests)
  {
    if gigId.None? || !Truthy(applicantEmail) {
      return BadRequest;
    }
    var a := NewApplication(gigId, applicantEmail, message);
    var d := db.InsertApplication(a.value);
    r := Ok(d);
  }

  /**
    GET /?gigId=&email=. A gig id takes precedence over an e-mail; with
    neither, every application. Always newest first.
  */
  function List(db: Store, gigId: Option<nat>, email: Option<string>): (r: seq<Doc<GigApplication>>)
    reads db
    ensures gigId.Some? ==> forall d :: d in r <==> d in db.applications && d.body.gigId == gigId.value
    ensures gigId.None? && Truthy(email) ==>
      forall d :: d in r <==> d in db.applications && d.body.applicantEmail == email.value
    ensures gigId.None? && !Truthy(email) ==> multiset(r) == multiset(db.applications)
    ensures db.Valid() ==> Descending(r)
  {
    var matching :=
      if gigId.Some? then Where(db.applications, (a: GigApplication) => a.gigId == gigId.value)
      else if Truthy(email) then Where(db.applications, (a: GigApplication) => a.applicantEmail == email.value)
      else db.applications;
    NewestFirst(matching)
  }

  /** PATCH /:id. Only the status of the one application changes. */
  method UpdateStatus(db: Store, id: nat, status: Option<string>) returns (r: Response<Doc<GigApplication>>)
    requires db.Valid()
    modifies db
    ensures db.Valid()
    ensures r.BadRequest? <==> Parse(status).None?
    ensures r.NotFound? <==> Parse(status).Some? && IndexOf(old(db.applications), id).None?
    ensures r.ServerError? ==> false
    ensures !r.Ok? ==> unchanged(db)
    ensures r.Ok? ==>
      && Parse(status).Some? && IndexOf(old(db.applications), id).Some?
      && var k := IndexOf(old(db.applications), id).value;
         var before := old(db.applications)[k];
         && r.value == before.(body := before.body.(status := Parse(status).value))
         && db.applications == old(db.applications)[k := r.value]
    ensures db.profiles == old(db.profiles)
    ensures db.gigs == old(db.gigs) && db.entries == old(db.entries) && db.requests == old(db.requests)
    ensures db.clock == old(db.clock)
  {
    var st := Parse(status);
    if st.None? {
      return BadRequest;
    }
    var k := IndexOf(db.applications, id);
    if k.None? {
      return NotFound;
    }
    var d := db.SetApplicationStatus(k.value, st.value);
    r := Ok(d);
  }

  /** The same application posted twice is stored twice, under two ids. */
  method ApplyTwice(gigId: nat, applicantEmail: string) returns (first: Doc<GigApplication>, second: Doc<GigApplication>, stored: nat)
    requires applicantEmail != []
    ensures first.body == second.body && first.id != second.id
    ensures stored == 2
  {
    var db := new Store();
    var a := Create(db, Some(gigId), Some(applicantEmail), None);
    var b := Create(db, Some(gigId), Some(applicantEmail), None);
    first, second := a.value, b.value;
    stored := |db.applications|;
  }
}
