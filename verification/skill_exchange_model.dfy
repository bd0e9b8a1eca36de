/**
  The SkillExchange schema (an entry describing a trade a user wants): name,
  skillOffered and skillWanted required, an optional owner e-mail, location
  defaulting to 'Remote' and matchScore defaulting to 80.
*/
module SkillExchangeModel {
  import opened Wrappers
  import opened JsString

  datatype Entry = Entry(
    name: string,
    email: Option<string>,
    skillOffered: string,
    skillWanted: string,
    location: string,
    matchScore: int)

  /** The object handed to `SkillExchange.create`, with undefined fields as None. */
  datatype EntryFields = EntryFields(
    name: Option<string>,
    email: Option<string>,
    skillOffered: Option<string>,
    skillWanted: Option<string>,
    location: Option<string>,
    matchScore: Option<int>)

  const DefaultLocation := "Remote"
  const DefaultMatchScore := 80

  predicate Complete(f: EntryFields) {
    Truthy(f.name) && Truthy(f.skillOffered) && Truthy(f.skillWanted)
  }

  /** `SkillExchange.create(fields)`; the e-mail is optional and kept as given. None stores nothing. */
  function NewEntry(f: EntryFields): (r: Option<Entry>)
    ensures r.Some? <==> Complete(f)
    ensures r.Some? ==>
      && r.value.name == f.name.value && r.value.email == f.email
      && r.value.skillOffered == f.skillOffered.value && r.value.skillWanted == f.skillWanted.value
    ensures r.Some? ==>
      && r.value.location == (if f.location.Some? then f.location.value else DefaultLocation)
      && r.value.matchScore == (if f.matchScore.Some? then f.matchScore.value else DefaultMatchScore)
  {
    if !Complete(f) then None
    else Some(Entry(f.name.value, f.email, f.skillOffered.value, f.skillWanted.value,
                    f.location.GetOr(DefaultLocation), f.matchScore.GetOr(DefaultMatchScore)))
  }
}
