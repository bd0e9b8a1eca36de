/**
  An in-memory stand-in for the MongoDB collections the routes use. Every
  stored record is a document with a store-assigned id and a creation stamp
  taken from one counter, so `sort({createdAt: -1})` ("newest first") is the
  reverse of insertion order. Profiles are a map keyed by their unique e-mail.
*/
module Db {
  import opened Wrappers
  import opened UserProfileModel
  import opened GigModel
  import opened SkillExchangeModel
  import opened GigApplicationModel
  import opened ExchangeRequestModel
  import opened StatusEnum

  /** A stored document: `_id`, `createdAt` and the schema's fields. */
  datatype Doc<T> = Doc(id: nat, createdAt: nat, body: T)

  ghost predicate Ascending<T>(s: seq<Doc<T>>) {
    forall i, j :: 0 <= i < j < |s| ==> s[i].createdAt < s[j].createdAt
  }

  ghost predicate Descending<T>(s: seq<Doc<T>>) {
    forall i, j :: 0 <= i < j < |s| ==> s[i].createdAt > s[j].createdAt
  }

  ghost predicate DistinctIds<T>(s: seq<Doc<T>>) {
    forall i, j :: 0 <= i < j < |s| ==> s[i].id != s[j].id
  }

  /** A collection as the store keeps it: in insertion order, ids distinct, every stamp below the counter. */
  ghost predicate Stamped<T>(s: seq<Doc<T>>, clock: nat) {
    && Ascending(s)
    && DistinctIds(s)
    && (forall i :: 0 <= i < |s| ==> s[i].id < clock && s[i].createdAt < clock)
  }

  /** Every profile sits under its own e-mail: the unique index on `email`. */
  ghost predicate KeyedByEmail(profiles: map<string, UserProfile>) {
    forall e :: e in profiles ==> profiles[e].email == e
  }

  /** `find(filter)`: the documents whose fields satisfy `p`, in stored order. */
  function Where<T(==,!new)>(s: seq<Doc<T>>, p: T -> bool): (r: seq<Doc<T>>)
    ensures forall d :: d in r <==> d in s && p(d.body)
    ensures Ascending(s) ==> Ascending(r)
  {
    if s == [] then []
    else
      var rest := Where(s[1..], p);
      if p(s[0].body) then [s[0]] + rest else rest
  }

  /** `.sort({createdAt: -1})` on documents listed in insertion order: a permutation, newest first. */
  function NewestFirst<T(==,!new)>(s: seq<Doc<T>>): (r: seq<Doc<T>>)
    ensures |r| == |s| && forall i :: 0 <= i < |s| ==> r[i] == s[|s| - 1 - i]
    ensures multiset(r) == multiset(s)
    ensures forall d :: d in r <==> d in s
    ensures Ascending(s) ==> Descending(r)
  {
    if s == [] then []
    else
      assert s == [s[0]] + s[1..];
      NewestFirst(s[1..]) + [s[0]]
  }

  /** `findById(id)`: the position of the document with that id, if any. */
  function IndexOf<T>(s: seq<Doc<T>>, id: nat): (r: Option<nat>)
    ensures r.Some? ==> r.value < |s| && s[r.value].id == id
    ensures r.None? ==> forall i :: 0 <= i < |s| ==> s[i].id != id
  {
    if s == [] then None
    else if s[0].id == id then Some(0)
    else match IndexOf(s[1..], id)
      case Some(k) => Some(k + 1)
      case None => None
  }

  /** `findByIdAndDelete(id)` on a collection with distinct ids removes exactly the document with that id. */
  lemma RemoveById<T(!new)>(s: seq<Doc<T>>, id: nat, k: nat)
    requires DistinctIds(s)
    requires IndexOf(s, id) == Some(k)
    ensures forall d :: d in s[..k] + s[k + 1..] <==> d in s && d.id != id
    ensures |s[..k] + s[k + 1..]| == |s| - 1
  {
    var r := s[..k] + s[k + 1..];
    assert forall i :: 0 <= i < k ==> r[i] == s[i];
    assert forall i :: k <= i < |r| ==> r[i] == s[i + 1];
    forall d | d in s && d.id != id ensures d in r {
      var i :| 0 <= i < |s| && s[i] == d;
      if i < k {
        assert r[i] == d;
      } else {
        assert r[i - 1] == d;
      }
    }
    forall d | d in r ensures d in s && d.id != id {
      var i :| 0 <= i < |r| && r[i] == d;
      if i < k {
        assert d == s[i];
      } else {
        assert d == s[i + 1];
      }
    }
  }

  /** The counter value of a profile's field, 0 when the profile does not exist yet. */
  function StatOf(profiles: map<string, UserProfile>, email: string, f: StatField): int {
    if email in profiles then Stat(profiles[email].stats, f) else 0
  }

  /**
    `Profile.findOneAndUpdate({email}, {$inc: {'stats.<f>': 1}}, {upsert: true})`:
    creates the default profile when the address is unknown, then adds one to
    that counter. No other profile and no other field changes.
  */
  function Increment(profiles: map<string, UserProfile>, email: string, f: StatField): (r: map<string, UserProfile>)
    ensures r.Keys == profiles.Keys + {email}
    ensures forall e :: e in profiles && e != email ==> r[e] == profiles[e]
    ensures Stat(r[email].stats, f) == StatOf(profiles, email, f) + 1
    ensures forall g :: g != f ==> Stat(r[email].stats, g) == StatOf(profiles, email, g)
    ensures email in profiles ==> r[email] == profiles[email].(stats := r[email].stats)
    ensures email !in profiles ==> r[email] == Blank(email).(stats := r[email].stats)
    ensures KeyedByEmail(profiles) ==> KeyedByEmail(r)
  {
    var p := if email in profiles then profiles[email] else Blank(email);
    profiles[email := p.(stats := Inc(p.stats, f))]
  }

  /** What any reader of a counter sees after one upsert-increment: one more at that address and field, the same elsewhere. */
  lemma StatOfIncrement(profiles: map<string, UserProfile>, email: string, f: StatField, e: string, g: StatField)
    ensures StatOf(Increment(profiles, email, f), e, g) == StatOf(profiles, e, g) + (if e == email && g == f then 1 else 0)
  {
  }

  /** Two counter bumps give the same profiles in either order, so the order the side writes land in does not matter. */
  lemma IncrementCommutes(profiles: map<string, UserProfile>, e1: string, f1: StatField, e2: string, f2: StatField)
    ensures Increment(Increment(profiles, e1, f1), e2, f2) == Increment(Increment(profiles, e2, f2), e1, f1)
  {
    if e1 == e2 {
      IncrementSameAddress(profiles, e1, f1, f2);
    } else {
      IncrementOtherAddress(profiles, e1, f1, e2, f2);
    }
  }

  lemma IncrementSameAddress(profiles: map<string, UserProfile>, e: string, f1: StatField, f2: StatField)
    ensures Increment(Increment(profiles, e, f1), e, f2) == Increment(Increment(profiles, e, f2), e, f1)
  {
    var p := if e in profiles then profiles[e] else Blank(e);
    IncCommutes(p.stats, f1, f2);
    IncrementTwice(profiles, e, f1, f2);
    IncrementTwice(profiles, e, f2, f1);
  }

  lemma IncrementOtherAddress(profiles: map<string, UserProfile>, e1: string, f1: StatField, e2: string, f2: StatField)
    requires e1 != e2
    ensures Increment(Increment(profiles, e1, f1), e2, f2) == Increment(Increment(profiles, e2, f2), e1, f1)
  {
    var p1 := if e1 in profiles then profiles[e1] else Blank(e1);
    var p2 := if e2 in profiles then profiles[e2] else Blank(e2);
    var q1 := p1.(stats := Inc(p1.stats, f1));
    var q2 := p2.(stats := Inc(p2.stats, f2));
    IncrementApart(profiles, e1, f1, e2, f2);
    IncrementApart(profiles, e2, f2, e1, f1);
    UpdatesCommute(profiles, e1, q1, e2, q2);
  }

  lemma UpdatesCommute<K, V>(m: map<K, V>, k1: K, v1: V, k2: K, v2: V)
    requires k1 != k2
    ensures m[k1 := v1][k2 := v2] == m[k2 := v2][k1 := v1]
  {
  }

  lemma IncrementTwice(profiles: map<string, UserProfile>, e: string, f1: StatField, f2: StatField)
    ensures var p := if e in profiles then profiles[e] else Blank(e);
            Increment(Increment(profiles, e, f1), e, f2) == profiles[e := p.(stats := Inc(Inc(p.stats, f1), f2))]
  {
  }

  lemma IncrementApart(profiles: map<string, UserProfile>, e1: string, f1: StatField, e2: string, f2: StatField)
    requires e1 != e2
    ensures var p1 := if e1 in profiles then profiles[e1] else Blank(e1);
            var p2 := if e2 in profiles then profiles[e2] else Blank(e2);
            Increment(Increment(profiles, e1, f1), e2, f2)
              == profiles[e1 := p1.(stats := Inc(p1.stats, f1))][e2 := p2.(stats := Inc(p2.stats, f2))]
  {
  }

  class Store {
    var gigs: seq<Doc<Gig>>
    var entries: seq<Doc<Entry>>
    var applications: seq<Doc<GigApplication>>
    var requests: seq<Doc<ExchangeRequest>>
    var profiles: map<string, UserProfile>
    /** The next id and creation stamp. */
    var clock: nat

    ghost predicate Valid()
      reads this
    {
      && Stamped(gigs, clock)
      && Stamped(entries, clock)
      && Stamped(applications, clock)
      && Stamped(requests, clock)
      && KeyedByEmail(profiles)
    }

    constructor ()
      ensures Valid()
      ensures gigs == [] && entries == [] && applications == [] && requests == []
      ensures profiles == map[] && clock == 0
    {
      gigs, entries, applications, requests := [], [], [], [];
      profiles := map[];
      clock := 0;
    }

    /** `Gig.create` once validation has passed. */
    method InsertGig(g: Gig) returns (d: Doc<Gig>)
      requires Valid()
      modifies this`gigs, this`clock
      ensures Valid()
      ensures d == Doc(old(clock), old(clock), g)
      ensures gigs == old(gigs) + [d] && clock == old(clock) + 1
    {
      d := Doc(clock, clock, g);
      gigs := gigs + [d];
      clock := clock + 1;
    }

    /** `SkillExchange.create` once validation has passed. */
    method InsertEntry(e: Entry) returns (d: Doc<Entry>)
      requires Valid()
      modifies this`entries, this`clock
      ensures Valid()
      ensures d == Doc(old(clock), old(clock), e)
      ensures entries == old(entries) + [d] && clock == old(clock) + 1
    {
      d := Doc(clock, clock, e);
      entries := entries + [d];
      clock := clock + 1;
    }

    /** `GigApplication.create` once validation has passed. */
    method InsertApplication(a: GigApplication) returns (d: Doc<GigApplication>)
      requires Valid()
      modifies this`applications, this`clock
      ensures Valid()
      ensures d == Doc(old(clock), old(clock), a)
      ensures applications == old(applications) + [d] && clock == old(clock) + 1
    {
      d := Doc(clock, clock, a);
      applications := applications + [d];
      clock := clock + 1;
    }

    /** `ExchangeRequest.create` once validation has passed. */
    method InsertRequest(x: ExchangeRequest) returns (d: Doc<ExchangeRequest>)
      requires Valid()
      modifies this`requests, this`clock
      ensures Valid()
      ensures d == Doc(old(clock), old(clock), x)
      ensures requests == old(requests) + [d] && clock == old(clock) + 1
    {
      d := Doc(clock, clock, x);
      requests := requests + [d];
      clock := clock + 1;
    }

    /** The `$inc` upsert on one profile counter. */
    method IncrementStat(email: string, f: StatField)
      requires Valid()
      modifies this`profiles
      ensures Valid()
      ensures profiles == Increment(old(profiles), email, f)
    {
      profiles := Increment(profiles, email, f);
    }

    /** `existing.status = status; await existing.save()` on the request at position k. */
    method SetRequestStatus(k: nat, st: Status) returns (d: Doc<ExchangeRequest>)
      requires Valid() && k < |requests|
      modifies this`requests
      ensures Valid()
      ensures d == old(requests[k]).(body := old(requests[k]).body.(status := st))
      ensures requests == old(requests)[k := d]
    {
      d := requests[k].(body := requests[k].body.(status := st));
      requests := requests[k := d];
    }

    /** `findByIdAndUpdate(id, {status}, {new: true})` on the application at position k. */
    method SetApplicationStatus(k: nat, st: Status) returns (d: Doc<GigApplication>)
      requires Valid() && k < |applications|
      modifies this`applications
      ensures Valid()
      ensures d == old(applications[k]).(body := old(applications[k]).body.(status := st))
      ensures applications == old(applications)[k := d]
    {
      d := applications[k].(body := applications[k].body.(status := st));
      applications := applications[k := d];
    }

    /** `findByIdAndDelete` on the gig at position k. */
    method RemoveGig(k: nat)
      requires Valid() && k < |gigs|
      modifies this`gigs
      ensures Valid()
      ensures gigs == old(gigs[..k] + gigs[k + 1..])
    {
      gigs := gigs[..k] + gigs[k + 1..];
    }

    /** Writes one profile under its own e-mail. */
    method PutProfile(p: UserProfile)
      requires Valid()
      modifies this`profiles
      ensures Valid()
      ensures profiles == old(profiles)[p.email := p]
    {
      profiles := profiles[p.email := p];
    }
  }
}
