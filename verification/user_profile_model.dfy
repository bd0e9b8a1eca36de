/**
  The UserProfile schema: a unique e-mail, a required name, three strings
  defaulting to '', a skills list defaulting to [] and four counters
  defaulting to 0.
*/
module UserProfileModel {
  import opened Wrappers
  import opened JsString

  datatype Stats = Stats(gigsPosted: int, gigsCompleted: int, skillExchanges: int, skillExchangesCompleted: int)

  /** The four counters, named as in `$inc: {'stats.<field>': 1}`. */
  datatype StatField = GigsPosted | GigsCompleted | SkillExchanges | SkillExchangesCompleted

  datatype UserProfile = UserProfile(
    email: string,
    name: string,
    role: string,
    location: string,
    bio: string,
    skills: seq<string>,
    stats: Stats)

  const ZeroStats := Stats(0, 0, 0, 0)

  function Stat(s: Stats, f: StatField): int {
    match f
    case GigsPosted => s.gigsPosted
    case GigsCompleted => s.gigsCompleted
    case SkillExchanges => s.skillExchanges
    case SkillExchangesCompleted => s.skillExchangesCompleted
  }

  /** `$inc` by one on one counter. */
  function Inc(s: Stats, f: StatField): (r: Stats)
    ensures Stat(r, f) == Stat(s, f) + 1
    ensures forall g :: g != f ==> Stat(r, g) == Stat(s, g)
  {
    match f
    case GigsPosted => s.(gigsPosted := s.gigsPosted + 1)
    case GigsCompleted => s.(gigsCompleted := s.gigsCompleted + 1)
    case SkillExchanges => s.(skillExchanges := s.skillExchanges + 1)
    case SkillExchangesCompleted => s.(skillExchangesCompleted := s.skillExchangesCompleted + 1)
  }

  /** Two bumps land on the same counters in either order. */
  lemma IncCommutes(s: Stats, f1: StatField, f2: StatField)
    ensures Inc(Inc(s, f1), f2) == Inc(Inc(s, f2), f1)
  {
    var a := Inc(Inc(s, f1), f2);
    var b := Inc(Inc(s, f2), f1);
    assert forall f :: Stat(a, f) == Stat(b, f);
    assert Stat(a, GigsPosted) == Stat(b, GigsPosted) && Stat(a, GigsCompleted) == Stat(b, GigsCompleted);
    assert Stat(a, SkillExchanges) == Stat(b, SkillExchanges);
    assert Stat(a, SkillExchangesCompleted) == Stat(b, SkillExchangesCompleted);
  }

  /**
    The document an upsert inserts for an unknown address before applying its
    update: the filter's e-mail and every default. Upserts skip validation, so
    the required name is missing; it is read back as ''.
  */
  function Blank(email: string): (p: UserProfile)
    ensures p.email == email && p.name == ""
    ensures p.role == "" && p.location == "" && p.bio == "" && p.skills == []
    ensures forall f :: Stat(p.stats, f) == 0
  {
    UserProfile(email, "", "", "", "", [], ZeroStats)
  }

  /**
    The schema's required fields and defaults, as a validated
    `UserProfile.create(...)` would apply them: e-mail and name are required,
    the rest take their defaults; None is a validation error. No route creates
    profiles this way: the profile route's upsert skips validation (see
    `ProfileRoutes.Upsert`) and the counter upserts insert `Blank` profiles.
  */
  function NewProfile(email: Option<string>, name: Option<string>, role: Option<string>, location: Option<string>,
               bio: Option<string>, skills: Option<seq<string>>): (r: Option<UserProfile>)
    ensures r.Some? <==> Truthy(email) && Truthy(name)
    ensures r.Some? ==> r.value.email == email.value && r.value.name == name.value
    ensures r.Some? ==>
      && r.value.role == (if role.Some? then role.value else "")
      && r.value.location == (if location.Some? then location.value else "")
      && r.value.bio == (if bio.Some? then bio.value else "")
      && r.value.skills == (if skills.Some? then skills.value else [])
    ensures r.Some? ==> forall f :: Stat(r.value.stats, f) == 0
  {
    if !Truthy(email) || !Truthy(name) then None
    else Some(UserProfile(email.value, name.value, role.GetOr(""), location.GetOr(""), bio.GetOr(""),
                          skills.GetOr([]), ZeroStats))
  }
}
