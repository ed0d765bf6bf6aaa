/** The authorization store and service: in-place writes to both buckets, the bounded
    search for a free id, and listing through a cursor that may use a hint. */
module AuthorizationService {
  import opened Wrappers
  import opened Bytes
  import opened Ids
  import opened BoltCursor
  import opened Authorizations
  import P = Permissions

  class Service {
    var auths: map<Key, Authorization>
    var index: map<Key, Key>

    function State(): Store
      reads this
    {
      Store(auths, index)
    }

    constructor ()
      ensures State() == EMPTY && Inv(State())
    {
      auths, index := map[], map[];
    }

    /** At most a hundred draws; reserved and taken ids are passed over. */
    method GenerateSafeId(draws: seq<Id>) returns (id: Option<Id>)
      requires |draws| == MAX_ID_GENERATION
      ensures id == SafeId(State(), draws)
    {
      for i := 0 to MAX_ID_GENERATION
        invariant SafeId(State(), draws) == SafeId(State(), draws[i..])
      {
        if draws[i] < RESERVED_IDS { continue; }
        if Enc(draws[i]) !in auths { return Some(draws[i]); }
      }
      return None;
    }

    /** Store.CreateAuthorization: running out of ids is reported as success. */
    method StoreCreate(given: Authorization, draws: seq<Id>) returns (e: Option<Error>)
      requires |draws| == MAX_ID_GENERATION
      modifies this
      ensures (State(), e) == CreateStep(old(State()), given, draws)
      ensures old(Inv(State())) ==> Inv(State()) && OtherLookupsUnchanged(old(State()), State(), given.token)
    {
      if Inv(State()) { CreateCallKeeps(State(), given, draws); }
      var a := given;
      if !Valid(a.id) || Enc(a.id) in auths {
        var id := GenerateSafeId(draws);
        if id.None? { return None; }
        a := a.(id := id.value);
      }
      if a.token in index { return Some(TokenExists); }
      var v := Encoded(a);
      if v.Err? { return Some(v.error); }
      if a.token == [] { return Some(EmptyKey); }
      index := index[a.token := Enc(a.id)];
      auths := auths[Enc(a.id) := v.value];
      return None;
    }

    method CreateAuthorization(given: Authorization, userFound: bool, orgFound: bool, token: Option<Key>,
                               draws: seq<Id>)
      returns (e: Option<Error>)
      requires |draws| == MAX_ID_GENERATION
      modifies this
      ensures (State(), e) == ServiceCreateStep(old(State()), given, userFound, orgFound, token, draws)
      ensures old(Inv(State())) ==> Inv(State())
      ensures old(Inv(State())) ==>
                OtherLookupsUnchanged(old(State()), State(),
                                      Concerned(old(State()), Create(given, userFound, orgFound, token, draws)))
    {
      if Inv(State()) { CallKeeps(State(), Create(given, userFound, orgFound, token, draws)); }
      var a := given;
      if !P.PermissionsForOrg(a.permissions, a.org) { return Some(InvalidPermissions); }
      if !userFound || !orgFound { return Some(UnableToCreate); }
      if a.token in index { return Some(TokenExists); }
      if a.token == [] {
        if token.None? { return Some(TokenFailed); }
        a := a.(token := token.value);
      }
      e := StoreCreate(a, draws);
    }

    method UpdateAuthorization(id: Id, status: Option<Status>, description: Option<Key>) returns (e: Option<Error>)
      modifies this
      ensures (State(), e) == UpdateStep(old(State()), id, status, description)
      ensures old(Inv(State())) ==> Inv(State())
      ensures old(Inv(State())) ==>
                OtherLookupsUnchanged(old(State()), State(),
                                      Concerned(old(State()), Update(id, status, description)))
    {
      if Inv(State()) { CallKeeps(State(), Update(id, status, description)); }
      var found := GetById(State(), id);
      if found.Err? { return Some(NotFound); }
      var a := found.value;
      if status.Some? { a := a.(status := status.value); }
      if description.Some? { a := a.(description := description.value); }
      var v := Encoded(a);
      if v.Err? { return Some(v.error); }
      if a.token == [] { return Some(EmptyKey); }
      index := index[a.token := Enc(a.id)];
      auths := auths[Enc(a.id) := v.value];
      return None;
    }

    method DeleteAuthorization(id: Id) returns (e: Option<Error>)
      modifies this
      ensures (State(), e) == DeleteStep(old(State()), id)
      ensures old(Inv(State())) ==> Inv(State())
      ensures old(Inv(State())) ==>
                OtherLookupsUnchanged(old(State()), State(),
                                      Concerned(old(State()), Delete(id)))
    {
      if Inv(State()) { CallKeeps(State(), Delete(id)); }
      var a := GetById(State(), id);
      if a.Err? { return Some(a.error); }
      index := index - {a.value.token};
      auths := auths - {Enc(id)};
      return None;
    }

    /** ListAuthorizations. `hidden` are the records a store that honours the hint
        leaves out, any of those the hint refuses. */
    method ListAuthorizations(f: Filter, ghost raw: Key -> Key, hidden: set<Key>) returns (r: seq<Authorization>)
      requires Inv(State())
      requires forall k :: k in hidden && k in auths ==> !Hint(raw, f, auths[k])
      ensures HintSafe(raw, f) ==> r == Scan(State(), f)
    {
      var keys := SortedKeys(auths.Keys - hidden);
      var cursor := ForwardCursor(keys, [], PLAIN);
      MatchingAll(keys);
      var ks := Drain(cursor);
      r := Collect(State(), f, ks);
      if HintSafe(raw, f) { HiddenAreUnwanted(State(), f, raw, hidden); }
    }

    /** By id, by token, or by scanning. */
    method FindAuthorizations(f: Filter, ghost raw: Key -> Key, hidden: set<Key>)
      returns (r: Result<seq<Authorization>, Error>)
      requires Inv(State())
      requires forall k :: k in hidden && k in auths ==> !Hint(raw, f, auths[k])
      ensures f.id.Some? || f.token.Some? || HintSafe(raw, f) ==> ListsLikeScan(State(), f, r)
    {
      if f.id.Some? {
        LookupByIdIsScan(State(), f);
        var a := GetById(State(), f.id.value);
        return if a.Ok? then Ok([a.value]) else Err(a.error);
      }
      if f.token.Some? {
        LookupByTokenIsScan(State(), f);
        var a := GetByToken(State(), f.token.value);
        return if a.Ok? then Ok([a.value]) else Err(a.error);
      }
      var list := ListAuthorizations(f, raw, hidden);
      return Ok(list);
    }
  }

  /** The outcome of FindAuthorizations against a scan: the same list, or nothing for a
      lookup by id or token that found nothing. */
  ghost predicate ListsLikeScan(s: Store, f: Filter, r: Result<seq<Authorization>, Error>) {
    if r.Ok? then r.value == Scan(s, f) else (f.id.Some? || f.token.Some?) && Scan(s, f) == []
  }

  /** The visitor of the listing. */
  method Collect(s: Store, f: Filter, ks: seq<Key>) returns (r: seq<Authorization>)
    requires forall k :: k in ks ==> k in s.auths
    ensures r == Shown(s, Select(Passes(s, f), ks))
  {
    r := [];
    for n := 0 to |ks|
      invariant r == Shown(s, Select(Passes(s, f), ks[..n]))
    {
      assert ks[n] in ks;
      SelectStep(Passes(s, f), ks, n);
      if Accepts(f, s.auths[ks[n]]) { r := r + [s.auths[ks[n]]]; }
    }
    assert ks[..|ks|] == ks;
  }

  /** Records hidden on the strength of a safe hint would have been filtered out. */
  lemma HiddenAreUnwanted(s: Store, f: Filter, raw: Key -> Key, hidden: set<Key>)
    requires Inv(s) && HintSafe(raw, f)
    requires forall k :: k in hidden && k in s.auths ==> !Hint(raw, f, s.auths[k])
    ensures Select(Passes(s, f), SortedKeys(s.auths.Keys - hidden)) == Select(Passes(s, f), SortedKeys(s.auths.Keys))
  {
    HintNeverHidesIff(raw, f);
    SelectAgrees(Passes(s, f), SortedKeys(s.auths.Keys - hidden), SortedKeys(s.auths.Keys));
  }
}
