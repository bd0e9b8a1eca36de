/**
  /api/dashboard: global counts and, for a given e-mail, that user's name and
  three counters, read as '' and 0 when there is no profile. Read-only.
*/
module DashboardRoutes {
  import opened Wrappers
  import opened JsString
  import opened UserProfileModel
  import opened Db

  datatype UserSummary = UserSummary(email: string, name: string, gigsPosted: int, gigsCompleted: int, skillExchanges: int)

  datatype Dashboard = Dashboard(totalGigs: nat, totalSkillExchanges: nat, totalProfiles: nat, user: Option<UserSummary>)

  /** GET /?email=. `user` is null without a truthy e-mail; an unknown e-mail is no error. */
  function Get(db: Store, email: Option<string>): (r: Dashboard)
    reads db
    ensures r.totalGigs == |db.gigs| && r.totalSkillExchanges == |db.entries| && r.totalProfiles == |db.profiles|
    ensures r.user.None? <==> !Truthy(email)
    ensures r.user.Some? ==>
      && r.user.value.email == email.value
      && r.user.value.name == (if email.value in db.profiles then db.profiles[email.value].name else "")
      && r.user.value.gigsPosted == StatOf(db.profiles, email.value, GigsPosted)
      && r.user.value.gigsCompleted == StatOf(db.profiles, email.value, GigsCompleted)
      && r.user.value.skillExchanges == StatOf(db.profiles, email.value, SkillExchanges)
  {
    var user :=
      if !Truthy(email) then None
      else if email.value in db.profiles then
        var p := db.profiles[email.value];
        Some(UserSummary(email.value, p.name, p.stats.gigsPosted, p.stats.gigsCompleted, p.stats.skillExchanges))
      else Some(UserSummary(email.value, "", 0, 0, 0));
    Dashboard(|db.gigs|, |db.entries|, |db.profiles|, user)
  }

  /** A user nobody has heard of reads as an empty name and zero counters. */
  lemma UnknownUserIsZero(db: Store, email: string)
    requires email != [] && email !in db.profiles
    ensures Get(db, Some(email)).user == Some(UserSummary(email, "", 0, 0, 0))
  {
  }
}
