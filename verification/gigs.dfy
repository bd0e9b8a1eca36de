/**
  /api/gigs: post a gig (and count it for its poster), list, fetch and delete
  gigs. Deleting a gig leaves the poster's counter as it was.
*/
module GigRoutes {
  import opened Wrappers
  import opened JsString
  import opened UserProfileModel
  import opened GigModel
  import opened Db

  /**
    POST /. The poster's counter is bumped only when the body's `postedBy` is
    truthy: a gig stored under the default 'Anonymous' counts for nobody.
    `statsWriteOk` says whether that best-effort write succeeded.
  */
  method Create(db: Store, body: GigFields, statsWriteOk: bool) returns (r: Response<Doc<Gig>>)
    requires db.Valid()
    modifies db
    ensures db.Valid()
    ensures r.ServerError? <==> !Complete(body)
    ensures !r.Ok? ==> r.ServerError? && unchanged(db)
    ensures r.Ok? ==>
      && Some(r.value.body) == NewGig(body)
      && r.value.id == old(db.clock) && db.clock == old(db.clock) + 1
      && db.gigs == old(db.gigs) + [r.value]
      && db.profiles == (if Truthy(body.postedBy) && statsWriteOk
                         then Increment(old(db.profiles), body.postedBy.value, GigsPosted)
                         else old(db.profiles))
    ensures db.entries == old(db.entries) && db.applications == old(db.applications) && db.requests == old(db.requests)
  {
    var g := NewGig(body);
    if g.None? {
      return ServerError;
    }
    var d := db.InsertGig(g.value);
    if Truthy(body.postedBy) && statsWriteOk {
      db.IncrementStat(body.postedBy.value, GigsPosted);
    }
    r := Ok(d);
  }

  /** GET /: every gig, newest first. */
  function List(db: Store): (r: seq<Doc<Gig>>)
    reads db
    ensures multiset(r) == multiset(db.gigs)
    ensures db.Valid() ==> Descending(r)
  {
    NewestFirst(db.gigs)
  }

  /** GET /:id. */
  function Get(db: Store, id: nat): (r: Response<Doc<Gig>>)
    reads db
    ensures r.Ok? ==> r.value in db.gigs && r.value.id == id
    ensures r.NotFound? <==> forall d :: d in db.gigs ==> d.id != id
    ensures r.Ok? || r.NotFound?
  {
    match IndexOf(db.gigs, id)
    case Some(k) => Ok(db.gigs[k])
    case None => NotFound
  }

  /** DELETE /:id. Removes exactly the gig with that id; no profile changes. */
  method Delete(db: Store, id: nat) returns (r: Response<string>)
    requires db.Valid()
    modifies db
    ensures db.Valid()
    ensures r.NotFound? <==> forall d :: d in old(db.gigs) ==> d.id != id
    ensures r.NotFound? ==> unchanged(db)
    ensures r.Ok? || r.NotFound?
    ensures r.Ok? ==>
      && |db.gigs| == |old(db.gigs)| - 1
      && forall d :: d in db.gigs <==> d in old(db.gigs) && d.id != id
    ensures db.profiles == old(db.profiles)
    ensures db.entries == old(db.entries) && db.applications == old(db.applications) && db.requests == old(db.requests)
    ensures db.clock == old(db.clock)
  {
    var k := IndexOf(db.gigs, id);
    if k.None? {
      return NotFound;
    }
    RemoveById(db.gigs, id, k.value);
    db.RemoveGig(k.value);
    r := Ok("Gig deleted successfully");
  }

  /**
    Posting a gig and then deleting it: the poster's counter is 1 after the
    post and still 1 after the delete.
  */
  method PostThenDelete(postedBy: string, body: GigFields) returns (afterPost: int, afterDelete: int)
    requires Complete(body) && body.postedBy == Some(postedBy) && postedBy != []
    ensures afterPost == 1 && afterDelete == 1
  {
    var db := new Store();
    var created := Create(db, body, true);
    afterPost := StatOf(db.profiles, postedBy, GigsPosted);
    var deleted := Delete(db, created.value.id);
    afterDelete := StatOf(db.profiles, postedBy, GigsPosted);
  }
}
