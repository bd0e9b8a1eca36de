/**
  /api/profile: fetch a profile by its exact e-mail, and create or overwrite
  one. Skills arrive either as a list, kept as it is, or as comma-separated
  text, which is split, trimmed and stripped of empty pieces.
*/
module ProfileRoutes {
  import opened Wrappers
  import opened JsString
  import opened UserProfileModel
  import opened Db

  /** The body's `skills`: an array, a string, or anything else (undefined included). */
  datatype SkillsInput = SkillList(items: seq<string>) | SkillText(text: string) | OtherSkills

  /** A skill as the text form yields it: non-empty, trimmed, without a comma. */
  predicate IsSkill(x: string) {
    x != [] && IsTrimmed(x) && ',' !in x
  }

  /** `.map((s) => s.trim()).filter(Boolean)`: trimmed pieces, empty ones dropped, order kept. */
  function Clean(pieces: seq<string>): (r: seq<string>)
    ensures |r| <= |pieces|
    ensures forall i :: 0 <= i < |r| ==> r[i] != [] && IsTrimmed(r[i])
  {
    if pieces == [] then []
    else
      var t := Trim(pieces[0]);
      var rest := Clean(pieces[1..]);
      if t == [] then rest else [t] + rest
  }

  /** One piece cleans to its trim, or to nothing when it trims to ''. */
  lemma CleanOne(p: string)
    ensures Clean([p]) == (if Trim(p) == [] then [] else [Trim(p)])
  {
    assert [p][1..] == [];
  }

  /** Cleaning works piece by piece: the cleaned pieces of a + b are those of a, then those of b. */
  lemma {:induction false} CleanAppend(a: seq<string>, b: seq<string>)
    ensures Clean(a + b) == Clean(a) + Clean(b)
  {
    if a != [] {
      assert (a + b)[1..] == a[1..] + b;
      CleanAppend(a[1..], b);
    } else {
      assert a + b == b;
    }
  }

  /** Trimming introduces no comma, so comma-free pieces clean to comma-free skills. */
  lemma {:induction false} CleanCommaFree(pieces: seq<string>)
    requires forall i :: 0 <= i < |pieces| ==> ',' !in pieces[i]
    ensures forall i :: 0 <= i < |Clean(pieces)| ==> IsSkill(Clean(pieces)[i])
  {
    if pieces != [] {
      CleanCommaFree(pieces[1..]);
      TrimKeepsOut(pieces[0], ',');
    }
  }

  /** The skills array the handler stores. */
  function NormaliseSkills(skills: SkillsInput): (r: seq<string>)
    ensures skills.SkillList? ==> r == skills.items
    ensures skills.SkillText? ==> forall i :: 0 <= i < |r| ==> IsSkill(r[i])
    ensures skills.OtherSkills? ==> r == []
  {
    match skills
    case SkillList(items) => items
    case SkillText(text) => CleanCommaFree(Split(text, ',')); Clean(Split(text, ','))
    case OtherSkills => []
  }

  /** Unfolds Clean once over a piece that does not trim to nothing. */
  lemma CleanCons(t: string, rest: seq<string>)
    requires Trim(t) != []
    ensures Clean([t] + rest) == [Trim(t)] + Clean(rest)
  {
    assert ([t] + rest)[1..] == rest;
  }

  /** A space in front of the first piece is trimmed away with no other effect. */
  lemma CleanLeadingSpace(pieces: seq<string>)
    requires |pieces| >= 1
    ensures Clean([[' '] + pieces[0]] + pieces[1..]) == Clean(pieces)
  {
    var spaced := [[' '] + pieces[0]] + pieces[1..];
    assert spaced[1..] == pieces[1..];
    TrimLeadingSpace(pieces[0]);
  }

  /** Joining with ', ' puts a comma and then a space between the first item and the rest. */
  lemma JoinCommaSpace(xs: seq<string>)
    requires |xs| >= 2
    ensures Join(xs, ", ") == xs[0] + [','] + ([' '] + Join(xs[1..], ", "))
  {
    assert ", " == [',', ' '];
    JoinTwoCharSep(xs, ',', ' ');
  }

  /** Splitting skills joined with ', ' on ',' cuts off the first skill and leaves a space on the next piece. */
  lemma SplitSpacedJoin(xs: seq<string>)
    requires |xs| >= 2 && ',' !in xs[0]
    ensures var pieces := Split(Join(xs[1..], ", "), ',');
            Split(Join(xs, ", "), ',') == [xs[0]] + ([[' '] + pieces[0]] + pieces[1..])
  {
    var rest := Join(xs[1..], ", ");
    JoinCommaSpace(xs);
    SplitAfterPiece(xs[0], ',', [' '] + rest);
    SplitCons(' ', rest, ',');
  }

  /** A skill in front of some pieces survives cleaning unchanged. */
  lemma CleanSkillCons(x: string, rest: seq<string>)
    requires IsSkill(x)
    ensures Clean([x] + rest) == [x] + Clean(rest)
  {
    TrimTrimmed(x);
    CleanCons(x, rest);
  }

  /** One more skill in front of a list that already round-trips. */
  lemma SkillsRoundTripStep(xs: seq<string>)
    requires |xs| >= 2 && IsSkill(xs[0])
    requires Clean(Split(Join(xs[1..], ", "), ',')) == xs[1..]
    ensures Clean(Split(Join(xs, ", "), ',')) == xs
  {
    var pieces := Split(Join(xs[1..], ", "), ',');
    SplitSpacedJoin(xs);
    CleanLeadingSpace(pieces);
    CleanSkillCons(xs[0], [[' '] + pieces[0]] + pieces[1..]);
    assert xs == [xs[0]] + xs[1..];
  }

  /**
    Text made by joining skills with ', ' (as the profile page shows them)
    normalises back to the same list.
  */
  lemma {:induction false} SkillsRoundTrip(xs: seq<string>)
    requires forall i :: 0 <= i < |xs| ==> IsSkill(xs[i])
    ensures NormaliseSkills(SkillText(Join(xs, ", "))) == xs
  {
    if xs == [] {
      assert Split([], ',') == [[]];
      assert Clean([[]]) == [];
    } else if |xs| == 1 {
      assert IsSkill(xs[0]);
      TrimTrimmed(xs[0]);
      SplitNoSep(xs[0], ',');
      CleanCons(xs[0], []);
    } else {
      SkillsRoundTrip(xs[1..]);
      SkillsRoundTripStep(xs);
    }
  }

  /** Normalising the ', '-joined result of a normalisation changes nothing. */
  lemma NormaliseStable(text: string)
    ensures var skills := NormaliseSkills(SkillText(text));
            NormaliseSkills(SkillText(Join(skills, ", "))) == skills
  {
    SkillsRoundTrip(NormaliseSkills(SkillText(text)));
  }

  /** The example the profile form relies on. */
  lemma ReactNode()
    ensures NormaliseSkills(SkillText("React, Node")) == ["React", "Node"]
  {
    assert Join(["React", "Node"], ", ") == "React, Node";
    SkillsRoundTrip(["React", "Node"]);
  }

  /** The pieces of the irregular example text. */
  lemma IrregularSplit()
    ensures Split(" React ,,Node,", ',') == [" React ", ""] + ["Node", ""]
  {
    var pieces := [" React ", "", "Node", ""];
    assert Join(pieces[2..], [',']) == "Node,";
    assert Join(pieces[1..], [',']) == ",Node,";
    assert Join(pieces, [',']) == " React ,,Node,";
    SplitJoin(pieces, ',');
  }

  lemma TrimReact()
    ensures Trim(" React ") == "React"
  {
    assert " React " == [' '] + ("React" + [' ']);
    TrimPadded("React");
  }

  /** A piece followed by an empty piece cleans to the piece's trim. */
  lemma CleanBeforeEmpty(p: string)
    requires Trim(p) != []
    ensures Clean([p, []]) == [Trim(p)]
  {
    assert [p, []][1..] == [[]];
    assert [p, []][1..][1..] == [];
  }

  /** Two pieces, each followed by an empty piece, clean to their two trims. */
  lemma CleanTwoBeforeEmpty(p: string, q: string)
    requires Trim(p) != [] && Trim(q) != []
    ensures Clean([p, []] + [q, []]) == [Trim(p), Trim(q)]
  {
    CleanBeforeEmpty(p);
    CleanBeforeEmpty(q);
    CleanAppend([p, []], [q, []]);
  }

  /** The irregular example's pieces, cleaned. */
  lemma IrregularClean()
    ensures Clean([" React ", ""] + ["Node", ""]) == ["React", "Node"]
  {
    TrimReact();
    TrimTrimmed("Node");
    CleanTwoBeforeEmpty(" React ", "Node");
  }

  /** Spaces around pieces, an empty piece and a trailing comma all vanish. */
  lemma IrregularText()
    ensures NormaliseSkills(SkillText(" React ,,Node,")) == ["React", "Node"]
  {
    IrregularSplit();
    IrregularClean();
  }

  /** The body's `stats`; an absent object reads as all three counters absent. */
  datatype StatsInput = StatsInput(gigsPosted: Option<int>, gigsCompleted: Option<int>, skillExchanges: Option<int>)

  datatype ProfileBody = ProfileBody(
    email: Option<string>,
    name: Option<string>,
    role: Option<string>,
    location: Option<string>,
    bio: Option<string>,
    skills: SkillsInput,
    stats: StatsInput)

  /**
    The stats object the handler writes, replacing the stored one whole.
    skillExchangesCompleted is not among its fields; this model reads it back
    at its schema default 0.
  */
  function WrittenStats(s: StatsInput): Stats {
    Stats(s.gigsPosted.GetOr(0), s.gigsCompleted.GetOr(0), s.skillExchanges.GetOr(0), 0)
  }

  /**
    `findOneAndUpdate({email}, {email, name, role, location, bio, skills, stats},
    {upsert: true})`. Undefined role, location and bio are left out of the
    update, so they keep their stored value (or the default '' on insert);
    every other field is overwritten.
  */
  function Upsert(profiles: map<string, UserProfile>, body: ProfileBody): (r: map<string, UserProfile>)
    requires body.email.Some? && body.name.Some?
    ensures r.Keys == profiles.Keys + {body.email.value}
    ensures forall e :: e in profiles && e != body.email.value ==> r[e] == profiles[e]
    ensures var p := r[body.email.value];
      && p.email == body.email.value && p.name == body.name.value
      && p.skills == NormaliseSkills(body.skills)
      && (forall f :: f != SkillExchangesCompleted ==> Stat(p.stats, f) == Stat(WrittenStats(body.stats), f))
      && Stat(p.stats, SkillExchangesCompleted) == 0
    ensures var e := body.email.value;
      var old_ := if e in profiles then profiles[e] else Blank(e);
      && r[e].role == body.role.GetOr(old_.role)
      && r[e].location == body.location.GetOr(old_.location)
      && r[e].bio == body.bio.GetOr(old_.bio)
    ensures KeyedByEmail(profiles) ==> KeyedByEmail(r)
  {
    var e := body.email.value;
    var base := if e in profiles then profiles[e] else Blank(e);
    profiles[e := UserProfile(e, body.name.value, body.role.GetOr(base.role), body.location.GetOr(base.location),
                              body.bio.GetOr(base.bio), NormaliseSkills(body.skills), WrittenStats(body.stats))]
  }

  /** Saving the same body twice leaves the profiles as saving it once. */
  lemma UpsertIdempotent(profiles: map<string, UserProfile>, body: ProfileBody)
    requires body.email.Some? && body.name.Some?
    ensures Upsert(Upsert(profiles, body), body) == Upsert(profiles, body)
  {
    var once := Upsert(profiles, body);
    var twice := Upsert(once, body);
    assert twice.Keys == once.Keys;
    forall e | e in once ensures twice[e] == once[e] {
    }
  }

  /** The stored counters are the supplied ones, whatever they were before: an overwrite, not an increment. */
  lemma UpsertOverwritesStats(p1: map<string, UserProfile>, p2: map<string, UserProfile>, body: ProfileBody)
    requires body.email.Some? && body.name.Some?
    ensures Upsert(p1, body)[body.email.value].stats == Upsert(p2, body)[body.email.value].stats
  {
  }

  /** POST /. */
  method Save(db: Store, body: ProfileBody) returns (r: Response<UserProfile>)
    requires db.Valid()
    modifies db
    ensures db.Valid()
    ensures r.BadRequest? <==> !Truthy(body.email) || !Truthy(body.name)
    ensures !r.Ok? ==> r.BadRequest? && unchanged(db)
    ensures r.Ok? ==>
      && body.email.Some? && body.name.Some?
      && db.profiles == Upsert(old(db.profiles), body)
      && r.value == db.profiles[body.email.value]
    ensures db.gigs == old(db.gigs) && db.entries == old(db.entries)
    ensures db.applications == old(db.applications) && db.requests == old(db.requests) && db.clock == old(db.clock)
  {
    if !Truthy(body.email) || !Truthy(body.name) {
      return BadRequest;
    }
    var updated := Upsert(db.profiles, body);
    var p := updated[body.email.value];
    db.PutProfile(p);
    assert db.profiles == updated;
    r := Ok(p);
  }

  /** GET /:email. The address is matched exactly, without normalising it. */
  function Get(db: Store, email: string): (r: Response<UserProfile>)
    reads db
    ensures r.Ok? <==> email in db.profiles
    ensures r.Ok? ==> r.value == db.profiles[email]
    ensures db.Valid() && r.Ok? ==> r.value.email == email
    ensures r.Ok? || r.NotFound?
  {
    if email in db.profiles then Ok(db.profiles[email]) else NotFound
  }

  /** Saving "React, Node" as the skills text and reading the profile back gives ["React", "Node"]. */
  method SaveThenGet(email: string, name: string) returns (skills: seq<string>)
    requires email != [] && name != []
    ensures skills == ["React", "Node"]
  {
    var db := new Store();
    var saved := Save(db, ProfileBody(Some(email), Some(name), None, None, None, SkillText("React, Node"),
                                      StatsInput(None, None, None)));
    var fetched := Get(db, email);
    ReactNode();
    skills := fetched.value.skills;
  }
}
