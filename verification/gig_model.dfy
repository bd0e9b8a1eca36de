/**
  The Gig schema: title, category, description, budget and duration are
  required; type, skills, location and postedBy have defaults.
*/
module GigModel {
  import opened Wrappers
  import opened JsString

  /** `kind` is the schema's `type` field. */
  datatype Gig = Gig(
    title: string,
    category: string,
    kind: string,
    skills: seq<string>,
    description: string,
    budget: int,
    duration: string,
    location: string,
    postedBy: string)

  /** The object handed to `Gig.create`, with undefined fields as None. */
  datatype GigFields = GigFields(
    title: Option<string>,
    category: Option<string>,
    kind: Option<string>,
    skills: Option<seq<string>>,
    description: Option<string>,
    budget: Option<int>,
    duration: Option<string>,
    location: Option<string>,
    postedBy: Option<string>)

  const DefaultKind := "One-time Project"
  const DefaultLocation := "Remote"
  const DefaultPostedBy := "Anonymous"

  /** The required checks: a String must be a non-empty string, a Number must be present. */
  predicate Complete(f: GigFields) {
    Truthy(f.title) && Truthy(f.category) && Truthy(f.description) && f.budget.Some? && Truthy(f.duration)
  }

  /** `Gig.create(fields)`: defaults for undefined fields, then validation; None stores nothing. */
  function NewGig(f: GigFields): (r: Option<Gig>)
    ensures r.Some? <==> Complete(f)
    ensures r.Some? ==>
      && r.value.title == f.title.value && r.value.category == f.category.value
      && r.value.description == f.description.value && r.value.budget == f.budget.value
      && r.value.duration == f.duration.value
    ensures r.Some? ==>
      && r.value.kind == (if f.kind.Some? then f.kind.value else DefaultKind)
      && r.value.skills == (if f.skills.Some? then f.skills.value else [])
      && r.value.location == (if f.location.Some? then f.location.value else DefaultLocation)
      && r.value.postedBy == (if f.postedBy.Some? then f.postedBy.value else DefaultPostedBy)
  {
    if !Complete(f) then None
    else Some(Gig(f.title.value, f.category.value, f.kind.GetOr(DefaultKind), f.skills.GetOr([]),
                  f.description.value, f.budget.value, f.duration.value,
                  f.location.GetOr(DefaultLocation), f.postedBy.GetOr(DefaultPostedBy)))
  }
}
