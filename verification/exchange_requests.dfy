/**
  /api/exchange-requests: create a request (and count it for the sender), list
  a user's inbox and outbox, and move a request through the status enum,
  counting the first acceptance for the receiver.
*/
module ExchangeRequestRoutes {
  import opened Wrappers
  import opened JsString
  import opened StatusEnum
  import opened UserProfileModel
  import opened ExchangeRequestModel
  import opened Db

  /**
    POST /. `statsWriteOk` says whether the best-effort profile update
    succeeded; its failure is logged and swallowed. The sender's counter is
    keyed by `fromEmail` exactly as sent, while the stored request holds the
    normalised addresses.
  */
  method Create(db: Store, fromEmail: Option<string>, toEmail: Option<string>, message: Option<string>,
                statsWriteOk: bool)
    returns (r: Response<Doc<ExchangeRequest>>)
    requires db.Valid()
    modifies db
    ensures db.Valid()
    ensures r.BadRequest? <==> !Truthy(fromEmail) || !Truthy(toEmail)
    ensures r.ServerError? <==> Truthy(fromEmail) && Truthy(toEmail) && NewRequest(fromEmail, toEmail, message, Some("pending")).None?
    ensures r.NotFound? ==> false
    ensures !r.Ok? ==> unchanged(db)
    ensures r.Ok? ==>
      && Some(r.value.body) == NewRequest(fromEmail, toEmail, message, Some("pending"))
      && r.value.body.status == Pending
      && r.value.id == old(db.clock) && db.clock == old(db.clock) + 1
      && db.requests == old(db.requests) + [r.value]
      && db.profiles == (if statsWriteOk then Increment(old(db.profiles), fromEmail.value, SkillExchanges)
                         else old(db.profiles))
    ensures db.gigs == old(db.gigs) && db.entries == old(db.entries) && db.applications == old(db.applications)
  {
    assert Parse(Some("pending")) == Some(Pending);
    if !Truthy(fromEmail) || !Truthy(toEmail) {
      return BadRequest;
    }
    var x := NewRequest(fromEmail, toEmail, message, Some("pending"));
    if x.None? {
      return ServerError;
    }
    var d := db.InsertRequest(x.value);
    if statsWriteOk {
      db.IncrementStat(fromEmail.value, SkillExchanges);
    }
    r := Ok(d);
  }

  /** The GET answer: `{received, sent}` for a user, `{received: [], sent: [], all}` without one. */
  datatype Listing = Listing(received: seq<Doc<ExchangeRequest>>, sent: seq<Doc<ExchangeRequest>>,
                             all: Option<seq<Doc<ExchangeRequest>>>)

  /** Requests from other people to `email`: a self-addressed request stays out of the inbox. */
  predicate ReceivedBy(email: string, x: ExchangeRequest) {
    x.toEmail == email && x.fromEmail != email
  }

  predicate SentBy(email: string, x: ExchangeRequest) {
    x.fromEmail == email
  }

  /**
    GET /?email=. The handler tests the raw query value for truthiness, but the
    filters are cast through the schema's `trim`/`lowercase` setters (`$ne`
    included), so the stored addresses are compared with the normalised query.
  */
  function List(db: Store, email: Option<string>): (r: Listing)
    reads db
    ensures !Truthy(email) ==>
      && r.received == [] && r.sent == [] && r.all.Some?
      && multiset(r.all.value) == multiset(db.requests)
    ensures Truthy(email) ==>
      && r.all.None?
      && (forall d :: d in r.received <==> d in db.requests && ReceivedBy(NormaliseEmail(email.value), d.body))
      && (forall d :: d in r.sent <==> d in db.requests && SentBy(NormaliseEmail(email.value), d.body))
    ensures forall d :: d in r.received ==> d !in r.sent
    ensures db.Valid() ==>
      && Descending(r.received) && Descending(r.sent)
      && (r.all.Some? ==> Descending(r.all.value))
  {
    if !Truthy(email) then
      Listing([], [], Some(NewestFirst(db.requests)))
    else
      var e := NormaliseEmail(email.value);
      var received := NewestFirst(Where(db.requests, (x: ExchangeRequest) => ReceivedBy(e, x)));
      var sent := NewestFirst(Where(db.requests, (x: ExchangeRequest) => SentBy(e, x)));
      Listing(received, sent, None)
  }

  /**
    PATCH /:id. The enum is checked before the lookup; the new status is stored
    whatever the old one was; the receiver's completed-exchanges counter moves
    only on the first acceptance, and only if that best-effort write succeeds.
  */
  method UpdateStatus(db: Store, id: nat, status: Option<string>, statsWriteOk: bool)
    returns (r: Response<Doc<ExchangeRequest>>)
    requires db.Valid()
    modifies db
    ensures db.Valid()
    ensures r.BadRequest? <==> Parse(status).None?
    ensures r.NotFound? <==> Parse(status).Some? && IndexOf(old(db.requests), id).None?
    ensures r.ServerError? ==> false
    ensures !r.Ok? ==> unchanged(db)
    ensures r.Ok? ==>
      && Parse(status).Some? && IndexOf(old(db.requests), id).Some?
      && var k := IndexOf(old(db.requests), id).value;
         var before := old(db.requests)[k];
         && r.value == before.(body := before.body.(status := Parse(status).value))
         && db.requests == old(db.requests)[k := r.value]
         && db.profiles == (if FirstAcceptance(before.body.status, r.value.body.status) && statsWriteOk
                            then Increment(old(db.profiles), before.body.toEmail, SkillExchangesCompleted)
                            else old(db.profiles))
    ensures db.gigs == old(db.gigs) && db.entries == old(db.entries) && db.applications == old(db.applications)
    ensures db.clock == old(db.clock)
  {
    var st := Parse(status);
    if st.None? {
      return BadRequest;
    }
    var k := IndexOf(db.requests, id);
    if k.None? {
      return NotFound;
    }
    var previous := db.requests[k.value].body.status;
    var d := db.SetRequestStatus(k.value, st.value);
    if FirstAcceptance(previous, st.value) && statsWriteOk {
      db.IncrementStat(d.body.toEmail, SkillExchangesCompleted);
    }
    r := Ok(d);
  }

  /** A fresh store holding one pending request, its sender counted once. */
  method OneRequest(fromEmail: string, toEmail: string) returns (db: Store, id: nat)
    requires fromEmail == NormaliseEmail(fromEmail) && toEmail == NormaliseEmail(toEmail)
    requires fromEmail != [] && toEmail != []
    ensures fresh(db) && db.Valid()
    ensures |db.requests| == 1 && db.requests[0].id == id
    ensures db.requests[0].body.fromEmail == fromEmail && db.requests[0].body.toEmail == toEmail
    ensures db.requests[0].body.status == Pending
    ensures db.profiles == Increment(map[], fromEmail, SkillExchanges)
  {
    db := new Store();
    var created := Create(db, Some(fromEmail), Some(toEmail), None, true);
    id := created.value.id;
  }

  /** PATCH on the only request of the store, with a status from the enum. */
  method PatchOnly(db: Store, id: nat, status: Status)
    requires db.Valid() && |db.requests| == 1 && db.requests[0].id == id
    modifies db
    ensures db.Valid() && |db.requests| == 1 && db.requests[0].id == id
    ensures db.requests[0].body == old(db.requests[0].body).(status := status)
    ensures db.profiles == (if FirstAcceptance(old(db.requests[0].body.status), status)
                            then Increment(old(db.profiles), db.requests[0].body.toEmail, SkillExchangesCompleted)
                            else old(db.profiles))
  {
    ParseName(status);
    assert IndexOf(db.requests, id) == Some(0);
    var r := UpdateStatus(db, id, Some(Name(status)), true);
  }

  /**
    A request sent and then accepted twice: the sender's exchange counter and
    the receiver's completed counter are both 1, because only the first
    acceptance counts.
  */
  method AcceptTwice(fromEmail: string, toEmail: string) returns (sent: int, completed: int)
    requires fromEmail == NormaliseEmail(fromEmail) && toEmail == NormaliseEmail(toEmail)
    requires fromEmail != [] && toEmail != []
    ensures sent == 1 && completed == 1
  {
    var db, id := OneRequest(fromEmail, toEmail);
    var created := db.profiles;
    PatchOnly(db, id, Accepted);
    PatchOnly(db, id, Accepted);
    StatOfIncrement(map[], fromEmail, SkillExchanges, fromEmail, SkillExchanges);
    StatOfIncrement(map[], fromEmail, SkillExchanges, toEmail, SkillExchangesCompleted);
    StatOfIncrement(created, toEmail, SkillExchangesCompleted, fromEmail, SkillExchanges);
    StatOfIncrement(created, toEmail, SkillExchangesCompleted, toEmail, SkillExchangesCompleted);
    sent := StatOf(db.profiles, fromEmail, SkillExchanges);
    completed := StatOf(db.profiles, toEmail, SkillExchangesCompleted);
  }

  /**
    The sender is counted under the address as typed, the request is stored
    under the normalised one: when they differ, the profile found under the
    stored sender address has not been counted.
  */
  method SenderCountedUnderRawAddress(typed: string, toEmail: string)
    returns (storedFrom: string, atTyped: int, atStored: int)
    requires typed != NormaliseEmail(typed) && NormaliseEmail(typed) != []
    requires toEmail == NormaliseEmail(toEmail) && toEmail != []
    ensures storedFrom == NormaliseEmail(typed)
    ensures atTyped == 1 && atStored == 0
  {
    var db := new Store();
    var created := Create(db, Some(typed), Some(toEmail), None, true);
    storedFrom := created.value.body.fromEmail;
    assert db.profiles == Increment(map[], typed, SkillExchanges);
    StatOfIncrement(map[], typed, SkillExchanges, typed, SkillExchanges);
    StatOfIncrement(map[], typed, SkillExchanges, storedFrom, SkillExchanges);
    atTyped := StatOf(db.profiles, typed, SkillExchanges);
    atStored := StatOf(db.profiles, storedFrom, SkillExchanges);
  }

  /**
    The inbox is found whatever capitals or surrounding spaces the query
    carries: `?email=Bob@x.com` lists the request sent to bob@x.com.
  */
  method QueryFindsNormalisedAddress(fromEmail: string, toEmail: string, query: string) returns (inInbox: bool)
    requires fromEmail == NormaliseEmail(fromEmail) && toEmail == NormaliseEmail(toEmail)
    requires fromEmail != [] && toEmail != [] && fromEmail != toEmail
    requires NormaliseEmail(query) == toEmail
    ensures inInbox
  {
    var db, id := OneRequest(fromEmail, toEmail);
    var listing := List(db, Some(query));
    inInbox := db.requests[0] in listing.received;
  }

  /**
    Nothing keeps an accepted request accepted: moved back to pending and
    accepted again, it is counted for the receiver a second time.
  */
  method AcceptReopenAccept(fromEmail: string, toEmail: string) returns (completed: int)
    requires fromEmail == NormaliseEmail(fromEmail) && toEmail == NormaliseEmail(toEmail)
    requires fromEmail != [] && toEmail != []
    ensures completed == 2
  {
    var db, id := OneRequest(fromEmail, toEmail);
    var p0 := db.profiles;
    PatchOnly(db, id, Accepted);
    var p1 := db.profiles;
    PatchOnly(db, id, Pending);
    PatchOnly(db, id, Accepted);
    StatOfIncrement(map[], fromEmail, SkillExchanges, toEmail, SkillExchangesCompleted);
    StatOfIncrement(p0, toEmail, SkillExchangesCompleted, toEmail, SkillExchangesCompleted);
    StatOfIncrement(p1, toEmail, SkillExchangesCompleted, toEmail, SkillExchangesCompleted);
    completed := StatOf(db.profiles, toEmail, SkillExchangesCompleted);
  }
}
