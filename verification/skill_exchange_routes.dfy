/**
  /api/skill-exchange: post an entry (and count it for its owner, when the
  entry names one) and list entries.
*/
module SkillExchangeRoutes {
  import opened Wrappers
  import opened JsString
  import opened UserProfileModel
  import opened SkillExchangeModel
  import opened Db

  /** The match score the handler passes on: `matchScore ?? 80`, so a supplied 0 stays 0. */
  function MatchScoreOrDefault(matchScore: Option<int>): (r: int)
    ensures matchScore.Some? ==> r == matchScore.value
    ensures matchScore.None? ==> r == DefaultMatchScore
  {
    matchScore.GetOr(80)
  }

  /**
    POST /. The owner's exchange counter is bumped only when the body's
    `email` is truthy; `statsWriteOk` says whether that best-effort write
    succeeded.
  */
  method Create(db: Store, body: EntryFields, statsWriteOk: bool) returns (r: Response<Doc<Entry>>)
    requires db.Valid()
    modifies db
    ensures db.Valid()
    ensures r.ServerError? <==> !Complete(body)
    ensures !r.Ok? ==> r.ServerError? && unchanged(db)
    ensures r.Ok? ==>
      && r.value.body == Entry(body.name.value, body.email, body.skillOffered.value, body.skillWanted.value,
                               body.location.GetOr(DefaultLocation), MatchScoreOrDefault(body.matchScore))
      && r.value.id == old(db.clock) && db.clock == old(db.clock) + 1
      && db.entries == old(db.entries) + [r.value]
      && db.profiles == (if Truthy(body.email) && statsWriteOk
                         then Increment(old(db.profiles), body.email.value, SkillExchanges)
                         else old(db.profiles))
    ensures db.gigs == old(db.gigs) && db.applications == old(db.applications) && db.requests == old(db.requests)
  {
    var e := NewEntry(body.(matchScore := Some(MatchScoreOrDefault(body.matchScore))));
    if e.None? {
      return ServerError;
    }
    var d := db.InsertEntry(e.value);
    if Truthy(body.email) && statsWriteOk {
      db.IncrementStat(body.email.value, SkillExchanges);
    }
    r := Ok(d);
  }

  /** GET /: every entry, newest first. */
  function List(db: Store): (r: seq<Doc<Entry>>)
    reads db
    ensures multiset(r) == multiset(db.entries)
    ensures db.Valid() ==> Descending(r)
  {
    NewestFirst(db.entries)
  }
}
