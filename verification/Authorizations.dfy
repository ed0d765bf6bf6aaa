/** Authorizations: a bucket by id and an index by token that mirror each other. */
module Authorizations {
  import opened Wrappers
  import opened Bytes
  import opened Ids
  import P = Permissions

  datatype Status = Active | Inactive | Unset | Unknown

  datatype Authorization = Authorization(id: Id, token: Key, status: Status, description: Key, org: Id, user: Id,
                                         permissions: seq<P.Permission>)

  datatype Error = InvalidPermissions | UnableToCreate | TokenExists | InvalidStatus | BadId | NotFound | TokenFailed
                 | EmptyKey

  /** authorizationsv1 and authorizationindexv1. */
  datatype Store = Store(auths: map<Key, Authorization>, index: map<Key, Key>)

  const EMPTY := Store(map[], map[])

  const MAX_ID_GENERATION := 100
  const RESERVED_IDS := 1000

  // ---------------------------------------------------------------- invariant

  /** What encodeAuthorization lets into the bucket: a zero id or organization has no
      JSON form, and bolt takes no empty index key. */
  predicate Storable(a: Authorization) {
    Valid(a.id) && Valid(a.org) && a.token != [] && (a.status.Active? || a.status.Inactive?)
  }

  ghost predicate Keyed(s: Store) {
    forall k :: k in s.auths ==> Storable(s.auths[k]) && k == Enc(s.auths[k].id)
  }

  /** Token `t` is indexed to `k` exactly when the record under `k` has token `t`. */
  ghost predicate Bijection(s: Store) {
    && (forall t :: t in s.index ==> s.index[t] in s.auths && s.auths[s.index[t]].token == t)
    && (forall k :: k in s.auths ==> s.auths[k].token in s.index && s.index[s.auths[k].token] == k)
  }

  ghost predicate Inv(s: Store) {
    Keyed(s) && Bijection(s)
  }

  /** No two records share a token. */
  lemma TokensUnique(s: Store, j: Key, k: Key)
    requires Inv(s) && j in s.auths && k in s.auths && s.auths[j].token == s.auths[k].token
    ensures j == k
  {
  }

  // --------------------------------------------------------------- operations

  predicate Usable(s: Store, id: Id) {
    id >= RESERVED_IDS && Enc(id) !in s.auths
  }

  /** generateSafeID over the ids its generator draws. */
  function SafeId(s: Store, draws: seq<Id>): (r: Option<Id>)
    ensures r.Some? ==> r.value in draws && Usable(s, r.value)
    ensures r.None? <==> forall d :: d in draws ==> !Usable(s, d)
  {
    if draws == [] then None
    else if Usable(s, draws[0]) then Some(draws[0])
    else SafeId(s, draws[1..])
  }

  /** The id a new record gets; None when every draw was reserved or taken. */
  function ChooseId(s: Store, a: Authorization, draws: seq<Id>): (r: Option<Id>)
    ensures r.Some? ==> Valid(r.value) && Enc(r.value) !in s.auths
  {
    if Valid(a.id) && Enc(a.id) !in s.auths then Some(a.id) else SafeId(s, draws)
  }

  function Encoded(a: Authorization): Result<Authorization, Error> {
    if a.status.Unknown? then Err(InvalidStatus)
    else if !Valid(a.id) || !Valid(a.org) then Err(BadId)
    else Ok(a.(status := if a.status.Unset? then Active else a.status))
  }

  /** Store.CreateAuthorization. */
  function CreateStep(s: Store, given: Authorization, draws: seq<Id>): (Store, Option<Error>) {
    var id := ChooseId(s, given, draws);
    if id.None? then (s, None)
    else
      var a := Encoded(given.(id := id.value));
      if given.token in s.index then (s, Some(TokenExists))
      else if a.Err? then (s, Some(a.error))
      else if given.token == [] then (s, Some(EmptyKey))
      else (Store(s.auths[Enc(id.value) := a.value], s.index[given.token := Enc(id.value)]), None)
  }

  /** Service.CreateAuthorization, with the answers of the tenant service and of the
      token generator. */
  function ServiceCreateStep(s: Store, given: Authorization, userFound: bool, orgFound: bool, token: Option<Key>,
                             draws: seq<Id>): (Store, Option<Error>)
  {
    if !P.PermissionsForOrg(given.permissions, given.org) then (s, Some(InvalidPermissions))
    else if !userFound || !orgFound then (s, Some(UnableToCreate))
    else if given.token in s.index then (s, Some(TokenExists))
    else if given.token != [] then CreateStep(s, given, draws)
    else if token.None? then (s, Some(TokenFailed))
    else CreateStep(s, given.(token := token.value), draws)
  }

  function GetById(s: Store, id: Id): Result<Authorization, Error> {
    if !Valid(id) then Err(BadId)
    else if Enc(id) in s.auths then Ok(s.auths[Enc(id)])
    else Err(NotFound)
  }

  function GetByToken(s: Store, token: Key): Result<Authorization, Error> {
    if token !in s.index then Err(NotFound)
    else
      var id := Decode(s.index[token]);
      if id.Err? then Err(BadId) else GetById(s, id.value)
  }

  /** The write of an update, in a transaction after the read of `a`. */
  function UpdateWrite(s: Store, a: Authorization): Store
    requires Valid(a.id)
  {
    Store(s.auths[Enc(a.id) := a], s.index[a.token := Enc(a.id)])
  }

  /** Service.UpdateAuthorization: read, change status and description, write both buckets. */
  function UpdateStep(s: Store, id: Id, status: Option<Status>, description: Option<Key>): (Store, Option<Error>) {
    var found := GetById(s, id);
    if found.Err? then (s, Some(NotFound))
    else
      var a := Encoded(found.value.(status := if status.Some? then status.value else found.value.status,
                                    description := if description.Some? then description.value
                                                   else found.value.description));
      if a.Err? then (s, Some(a.error))
      else if a.value.token == [] then (s, Some(EmptyKey))
      else (UpdateWrite(s, a.value), None)
  }

  function DeleteStep(s: Store, id: Id): (Store, Option<Error>) {
    var a := GetById(s, id);
    if a.Err? then (s, Some(a.error))
    else (Store(s.auths - {Enc(id)}, s.index - {a.value.token}), None)
  }

  // --------------------------------------------------------------- what they keep

  lemma CreateKeepsBijection(s: Store, given: Authorization, draws: seq<Id>)
    requires Inv(s)
    ensures Inv(CreateStep(s, given, draws).0)
  {
    var id := ChooseId(s, given, draws);
    if id.Some? && CreateStep(s, given, draws).1.None? {
      var t := CreateStep(s, given, draws).0;
      assert forall k :: k in s.auths ==> s.auths[k].token != given.token && k != Enc(id.value);
      assert Keyed(t);
    }
  }

  /** Neither the given id nor any of those drawn can be used. */
  predicate IdsRunOut(s: Store, given: Authorization, draws: seq<Id>) {
    (!Valid(given.id) || Enc(given.id) in s.auths)
    && forall d :: d in draws ==> d < RESERVED_IDS || Enc(d) in s.auths
  }

  /** A create reports success without storing anything exactly when the given id is
      unusable and every draw is reserved or taken; otherwise success stores the
      record under its token and its id, and failure changes nothing. */
  lemma CreateStoresUnlessIdsRunOut(s: Store, given: Authorization, draws: seq<Id>)
    requires Inv(s)
    ensures var (t, e) := CreateStep(s, given, draws);
            && (e.Some? ==> t == s)
            && (e.None? ==> (t == s <==> IdsRunOut(s, given, draws)))
            && (t != s ==> given.token in t.index && t.index[given.token] in t.auths
                             && t.index[given.token] !in s.auths && given.token !in s.index)
  {
    var id := ChooseId(s, given, draws);
    var (t, e) := CreateStep(s, given, draws);
    if id.Some? && e.None? {
      assert Enc(id.value) in t.auths && Enc(id.value) !in s.auths;
    }
  }

  /** The id found is the first usable one drawn. */
  lemma {:induction false} SafeIdIsFirst(s: Store, draws: seq<Id>)
    requires SafeId(s, draws).Some?
    ensures exists i :: 0 <= i < |draws| && SafeId(s, draws).value == draws[i] && FirstUsable(s, draws, i)
  {
    if Usable(s, draws[0]) {
      assert FirstUsable(s, draws, 0);
    } else {
      SafeIdIsFirst(s, draws[1..]);
      var i :| 0 <= i < |draws[1..]| && SafeId(s, draws[1..]).value == draws[1..][i] && FirstUsable(s, draws[1..], i);
      assert forall j :: 0 < j < |draws| ==> draws[j] == draws[1..][j - 1];
      assert FirstUsable(s, draws, i + 1);
    }
  }

  predicate FirstUsable(s: Store, draws: seq<Id>, i: int)
    requires 0 <= i < |draws|
  {
    Usable(s, draws[i]) && forall j :: 0 <= j < i ==> !Usable(s, draws[j])
  }

  /** The first id past the reserved ones can be drawn. */
  lemma ReservedBound()
    ensures SafeId(EMPTY, [999, 1000]) == Some(1000)
  {
    assert [999, 1000][1..] == [1000];
  }

  /** A hundred reserved draws for a record without id: success, and nothing stored. */
  lemma SuccessMayStoreNothing()
    ensures var given := Authorization(0, [116], Active, [], 1, 1, []);
            var draws := seq(MAX_ID_GENERATION, _ => 999 as Id);
            CreateStep(EMPTY, given, draws) == (EMPTY, None)
  {
    var given := Authorization(0, [116], Active, [], 1, 1, []);
    var draws := seq(MAX_ID_GENERATION, _ => 999 as Id);
    assert forall d :: d in draws ==> !Usable(EMPTY, d);
    assert ChooseId(EMPTY, given, draws).None?;
  }

  lemma UpdateKeepsBijection(s: Store, id: Id, status: Option<Status>, description: Option<Key>)
    requires Inv(s)
    ensures var t := UpdateStep(s, id, status, description).0;
            Inv(t) && t.index == s.index && t.auths.Keys == s.auths.Keys
  {
    if GetById(s, id).Ok? {
      var a := GetById(s, id).value;
      EncInjective(id, a.id);
      assert s.index[a.token := Enc(a.id)] == s.index;
      if UpdateStep(s, id, status, description).1.None? {
        StaleUpdateKeepsBijectionIff(s, UpdateStep(s, id, status, description).0.auths[Enc(id)]);
      }
    }
  }

  lemma DeleteKeepsBijection(s: Store, id: Id)
    requires Inv(s)
    ensures Inv(DeleteStep(s, id).0)
    ensures GetById(s, id).Ok? ==> GetByToken(DeleteStep(s, id).0, GetById(s, id).value.token) == Err(NotFound)
  {
    var t := DeleteStep(s, id).0;
    if GetById(s, id).Ok? {
      assert forall k :: k in t.auths ==> t.auths[k].token != s.auths[Enc(id)].token;
    }
  }

  /** Whatever happened since the record was read, its write keeps the bijection exactly
      when neither its token nor its id has gone to another record. */
  lemma StaleUpdateKeepsBijectionIff(s: Store, a: Authorization)
    requires Inv(s) && Storable(a)
    ensures Inv(UpdateWrite(s, a)) <==>
            && (a.token in s.index ==> s.index[a.token] == Enc(a.id))
            && (Enc(a.id) in s.auths ==> s.auths[Enc(a.id)].token == a.token)
  {
    var t := UpdateWrite(s, a);
    var k := Enc(a.id);
    if a.token in s.index && s.index[a.token] != k {
      assert s.index[a.token] in t.auths;
    } else if k in s.auths && s.auths[k].token != a.token {
      assert s.auths[k].token in t.index;
    } else {
      assert Keyed(t);
    }
  }

  /** A record read, deleted, and its token given to a new record before the write. */
  lemma StaleUpdateMayBreak()
    ensures var a := Authorization(2000, [116], Active, [], 1, 1, []);
            var read := CreateStep(EMPTY, a, []).0;
            var found := CreateStep(DeleteStep(read, 2000).0, a.(id := 2001), []).0;
            GetById(read, 2000) == Ok(a) && Inv(found) && !Inv(UpdateWrite(found, a))
  {
    var a := Authorization(2000, [116], Active, [], 1, 1, []);
    var read := CreateStep(EMPTY, a, []).0;
    var deleted := DeleteStep(read, 2000).0;
    assert deleted == EMPTY;
    CreateKeepsBijection(deleted, a.(id := 2001), []);
    var found := CreateStep(deleted, a.(id := 2001), []).0;
    if Enc(2000) == Enc(2001) { EncInjective(2000, 2001); }
    StaleUpdateKeepsBijectionIff(found, a);
  }

  datatype Call =
    | Create(a: Authorization, userFound: bool, orgFound: bool, token: Option<Key>, draws: seq<Id>)
    | Update(id: Id, status: Option<Status>, description: Option<Key>)
    | Delete(id: Id)

  function Apply(s: Store, c: Call): Store {
    match c
    case Create(a, userFound, orgFound, token, draws) => ServiceCreateStep(s, a, userFound, orgFound, token, draws).0
    case Update(id, status, description) => UpdateStep(s, id, status, description).0
    case Delete(id) => DeleteStep(s, id).0
  }

  ghost predicate Run(states: seq<Store>, calls: seq<Call>) {
    && |states| == |calls| + 1 && states[0] == EMPTY
    && forall i :: 0 <= i < |calls| ==> states[i + 1] == Apply(states[i], calls[i])
  }

  /** No lookup by another token differs. */
  ghost predicate OtherLookupsUnchanged(s: Store, t: Store, token: Key) {
    forall other :: other != token ==> GetByToken(t, other) == GetByToken(s, other)
  }

  /** The token whose record a call is about. */
  function Concerned(s: Store, c: Call): Key {
    match c
    case Create(a, _, _, token, _) => if a.token == [] && token.Some? then token.value else a.token
    case Update(id, _, _) => if GetById(s, id).Ok? then GetById(s, id).value.token else []
    case Delete(id) => if GetById(s, id).Ok? then GetById(s, id).value.token else []
  }

  /** Every call keeps the bijection, and the lookups by every token but one. */
  lemma CallKeeps(s: Store, c: Call)
    requires Inv(s)
    ensures Inv(Apply(s, c)) && OtherLookupsUnchanged(s, Apply(s, c), Concerned(s, c))
  {
    match c
    case Create(a, userFound, orgFound, token, draws) =>
      CreateCallKeeps(s, a, draws);
      if token.Some? { CreateCallKeeps(s, a.(token := token.value), draws); }
    case Update(id, status, description) =>
      UpdateCallKeeps(s, id, status, description);
    case Delete(id) =>
      DeleteCallKeeps(s, id);
  }

  lemma UpdateCallKeeps(s: Store, id: Id, status: Option<Status>, description: Option<Key>)
    requires Inv(s)
    ensures var c := Update(id, status, description);
            Inv(Apply(s, c)) && OtherLookupsUnchanged(s, Apply(s, c), Concerned(s, c))
  {
    UpdateKeepsBijection(s, id, status, description);
    if UpdateStep(s, id, status, description).1.None? {
      UpdateThenFind(s, id, status, description);
      LookupsOfOneRecord(s, UpdateStep(s, id, status, description).0, id);
    }
  }

  lemma DeleteCallKeeps(s: Store, id: Id)
    requires Inv(s)
    ensures Inv(Apply(s, Delete(id))) && OtherLookupsUnchanged(s, Apply(s, Delete(id)), Concerned(s, Delete(id)))
  {
    DeleteKeepsBijection(s, id);
    if GetById(s, id).Ok? { LookupsOfOneRecord(s, DeleteStep(s, id).0, id); }
  }

  lemma CreateCallKeeps(s: Store, given: Authorization, draws: seq<Id>)
    requires Inv(s)
    ensures Inv(CreateStep(s, given, draws).0)
    ensures OtherLookupsUnchanged(s, CreateStep(s, given, draws).0, given.token)
  {
    CreateKeepsBijection(s, given, draws);
    if ChooseId(s, given, draws).Some? && CreateStep(s, given, draws).1.None? { CreateThenFind(s, given, draws); }
  }

  /** Where stores differ in one record only, lookups differ for its token only. */
  lemma LookupsOfOneRecord(s: Store, t: Store, id: Id)
    requires Inv(s) && Inv(t) && GetById(s, id).Ok? && t.auths - {Enc(id)} == s.auths - {Enc(id)}
    requires Enc(id) in t.auths ==> t.auths[Enc(id)].token == s.auths[Enc(id)].token
    ensures OtherLookupsUnchanged(s, t, GetById(s, id).value.token)
  {
    forall other | other != GetById(s, id).value.token
      ensures GetByToken(t, other) == GetByToken(s, other)
    {
      if other in s.index {
        IndexedTokenReads(s, other);
        assert s.index[other] in t.auths - {Enc(id)};
        IndexedTokenReads(t, other);
      } else {
        StillNotIndexed(s, t, id, other);
      }
    }
  }

  lemma StillNotIndexed(s: Store, t: Store, id: Id, other: Key)
    requires Inv(s) && Inv(t) && GetById(s, id).Ok? && t.auths - {Enc(id)} == s.auths - {Enc(id)}
    requires Enc(id) in t.auths ==> t.auths[Enc(id)].token == s.auths[Enc(id)].token
    requires other != s.auths[Enc(id)].token && other !in s.index
    ensures other !in t.index
  {
    forall k | k in t.auths
      ensures t.auths[k].token != other
    {
      if k != Enc(id) { assert k in t.auths - {Enc(id)} && k in s.auths; }
    }
  }

  /** Token index and id bucket are a bijection in every store of every serialised run. */
  lemma {:induction false} EveryRunKeepsBijection(states: seq<Store>, calls: seq<Call>, n: nat)
    requires Run(states, calls) && n < |states|
    ensures Inv(states[n])
  {
    if n == 0 {
    } else {
      EveryRunKeepsBijection(states, calls, n - 1);
      CallKeeps(states[n - 1], calls[n - 1]);
    }
  }

  // ------------------------------------------------------------------ reading

  datatype Filter = Filter(id: Option<Id>, token: Option<Key>, org: Option<Id>, user: Option<Id>)

  predicate Accepts(f: Filter, a: Authorization) {
    if f.id.Some? then a.id == f.id.value
    else if f.token.Some? then a.token == f.token.value
    else (f.org.Some? ==> a.org == f.org.value) && (f.user.Some? ==> a.user == f.user.value)
  }

  /** The cursor predicate, on the JSON of a record. `raw` is the JSON form of a string
      without its quotes; a zero user id is left out of the JSON. */
  predicate Hint(raw: Key -> Key, f: Filter, a: Authorization) {
    if f.id.Some? then a.id == f.id.value
    else if f.token.Some? then raw(a.token) == f.token.value
    else
      && (f.org.Some? ==> a.org == f.org.value)
      && (f.user.Some? ==> Valid(a.user) && a.user == f.user.value)
  }

  /** What a caller can check about a filter before it trusts the hint. */
  predicate HintSafe(raw: Key -> Key, f: Filter) {
    if f.id.Some? then true
    else if f.token.Some? then f.token.value == [] || raw(f.token.value) == f.token.value
    else f.user == Some(0) ==> f.org.Some? && !Valid(f.org.value)
  }

  /** The hint hides no storable record the filter accepts, exactly when the token
      reads the same in JSON and the user is not the zero id. */
  lemma HintNeverHidesIff(raw: Key -> Key, f: Filter)
    ensures (forall a :: Storable(a) && Accepts(f, a) ==> Hint(raw, f, a)) <==> HintSafe(raw, f)
  {
    if !HintSafe(raw, f) {
      var hidden := if f.token.Some? then Authorization(1, f.token.value, Active, [], 1, 1, [])
                    else Authorization(1, [97], Active, [], if f.org.Some? then f.org.value else 1, 0, []);
      assert Storable(hidden) && Accepts(f, hidden) && !Hint(raw, f, hidden);
    }
  }

  /** What a safe hint lets through the filter accepts, if the JSON form tells tokens apart. */
  lemma HintRefusesUnwanted(raw: Key -> Key, f: Filter, a: Authorization)
    requires HintSafe(raw, f) && Hint(raw, f, a)
    requires f.token.Some? ==> raw(a.token) == raw(f.token.value) ==> a.token == f.token.value
    requires f.token != Some([])
    ensures Accepts(f, a)
  {
  }

  /** A record without a user, looked for by that. */
  lemma HintMayHide(raw: Key -> Key)
    ensures var a := Authorization(1, [97], Active, [], 1, 0, []);
            var f := Filter(None, None, None, Some(0));
            Storable(a) && Accepts(f, a) && !Hint(raw, f, a)
  {
  }

  function Passes(s: Store, f: Filter): Key -> bool {
    k => k in s.auths && Accepts(f, s.auths[k])
  }

  function Shown(s: Store, ks: seq<Key>): (r: seq<Authorization>)
    requires forall k :: k in ks ==> k in s.auths
    ensures |r| == |ks| && forall i :: 0 <= i < |ks| ==> r[i] == s.auths[ks[i]]
  {
    seq(|ks|, i requires 0 <= i < |ks| => s.auths[ks[i]])
  }

  /** Reference: scan every record and filter. */
  function Scan(s: Store, f: Filter): seq<Authorization> {
    Shown(s, Select(Passes(s, f), SortedKeys(s.auths.Keys)))
  }

  lemma ScanOfOne(s: Store, f: Filter, k: Key)
    requires forall j :: Passes(s, f)(j) <==> j == k
    ensures k in s.auths && Scan(s, f) == [s.auths[k]]
  {
    var ks := SortedKeys(s.auths.Keys);
    assert Passes(s, f)(k);
    SelectAscending(Passes(s, f), ks);
    AscendingUnique(Select(Passes(s, f), ks), [k]);
  }

  /** The fast lookup by token finds exactly what a scan for that token lists. */
  lemma LookupByTokenIsScan(s: Store, f: Filter)
    requires Inv(s) && f.id.None? && f.token.Some?
    ensures var r := GetByToken(s, f.token.value);
            if r.Ok? then Scan(s, f) == [r.value] else r == Err(NotFound) && Scan(s, f) == []
  {
    var token := f.token.value;
    if token in s.index {
      IndexedTokenReads(s, token);
      ScanOfOne(s, f, s.index[token]);
    } else {
      SelectNone(Passes(s, f), SortedKeys(s.auths.Keys));
    }
  }

  lemma IndexedTokenReads(s: Store, token: Key)
    requires Inv(s) && token in s.index
    ensures s.index[token] in s.auths && GetByToken(s, token) == Ok(s.auths[s.index[token]])
  {
    DecodeEncode(s.auths[s.index[token]].id);
  }

  lemma LookupByIdIsScan(s: Store, f: Filter)
    requires Inv(s) && f.id.Some?
    ensures var r := GetById(s, f.id.value);
            if r.Ok? then Scan(s, f) == [r.value] else Scan(s, f) == []
  {
    var id := f.id.value;
    if GetById(s, id).Ok? {
      EncInjective(id, s.auths[Enc(id)].id);
      ScanOfOne(s, f, Enc(id));
    } else {
      SelectNone(Passes(s, f), SortedKeys(s.auths.Keys));
    }
  }

  // ---------------------------------------------------------------- reading what was written

  /** A stored record is found by its token and by its id, and no other lookup changes. */
  lemma CreateThenFind(s: Store, given: Authorization, draws: seq<Id>)
    requires Inv(s) && CreateStep(s, given, draws).1.None? && ChooseId(s, given, draws).Some?
    ensures var t := CreateStep(s, given, draws).0;
            var a := given.(id := ChooseId(s, given, draws).value,
                            status := if given.status.Unset? then Active else given.status);
            && GetByToken(t, given.token) == Ok(a) && GetById(t, a.id) == Ok(a)
            && (forall token :: token != given.token ==> GetByToken(t, token) == GetByToken(s, token))
  {
    var t := CreateStep(s, given, draws).0;
    var id := ChooseId(s, given, draws).value;
    DecodeEncode(id);
    forall token | token != given.token
      ensures GetByToken(t, token) == GetByToken(s, token)
    {
      if token in s.index { DecodeEncode(s.auths[s.index[token]].id); }
    }
  }

  /** An update changes the status and the description of one record and nothing else. */
  lemma UpdateThenFind(s: Store, id: Id, status: Option<Status>, description: Option<Key>)
    requires Inv(s) && UpdateStep(s, id, status, description).1.None?
    ensures var t := UpdateStep(s, id, status, description).0;
            var was := GetById(s, id).value;
            var now := GetById(t, id);
            && now.Ok? && now.value == was.(status := now.value.status, description := now.value.description)
            && (status.None? ==> now.value.status == was.status)
            && (status.Some? && !status.value.Unset? ==> now.value.status == status.value)
            && now.value.description == (if description.Some? then description.value else was.description)
            && t.auths - {Enc(id)} == s.auths - {Enc(id)}
  {
    EncInjective(id, GetById(s, id).value.id);
  }

  // ---------------------------------------------------------------- answers

  /** When creating a token is refused, and with what; a refusal changes nothing. */
  lemma CreateAnswers(s: Store, given: Authorization, userFound: bool, orgFound: bool, token: Option<Key>,
                      draws: seq<Id>)
    ensures var (t, e) := ServiceCreateStep(s, given, userFound, orgFound, token, draws);
            var secret := if given.token == [] && token.Some? then token.value else given.token;
            && e == (if exists p :: p in given.permissions && p.resource.org.Some? && p.resource.org.value != given.org
                     then Some(InvalidPermissions)
                     else if !userFound || !orgFound then Some(UnableToCreate)
                     else if given.token in s.index then Some(TokenExists)
                     else if given.token == [] && token.None? then Some(TokenFailed)
                     else if IdsRunOut(s, given, draws) then None
                     else if secret in s.index then Some(TokenExists)
                     else if given.status.Unknown? then Some(InvalidStatus)
                     else if given.org == 0 then Some(BadId)
                     else if secret == [] then Some(EmptyKey)
                     else None)
            && (e.Some? ==> t == s)
  {
    ForOrgIff(given.permissions, given.org);
  }

  lemma ForOrgIff(ps: seq<P.Permission>, org: Id)
    ensures P.PermissionsForOrg(ps, org) <==>
            !exists p :: p in ps && p.resource.org.Some? && p.resource.org.value != org
  {
    if !P.PermissionsForOrg(ps, org) {
      var i :| 0 <= i < |ps| && ps[i].resource.org.Some? && ps[i].resource.org.value != org;
      assert ps[i] in ps;
    }
  }

  /** When an update or a delete is refused. */
  lemma ChangeAnswers(s: Store, id: Id, status: Option<Status>, description: Option<Key>)
    requires Inv(s)
    ensures var (t, e) := UpdateStep(s, id, status, description);
            && e == (if id == 0 || Enc(id) !in s.auths then Some(NotFound)
                     else if status == Some(Unknown) then Some(InvalidStatus)
                     else None)
            && (e.Some? ==> t == s)
    ensures var (t, e) := DeleteStep(s, id);
            && e == (if id == 0 then Some(BadId) else if Enc(id) !in s.auths then Some(NotFound) else None)
            && (e.Some? ==> t == s)
            && (e.None? ==> t.auths == s.auths - {Enc(id)} && t.index == s.index - {s.auths[Enc(id)].token})
  {
  }

  /** A record is listed exactly when it has the id asked for, else the token, else the
      organization and user. */
  lemma ScannedIff(s: Store, f: Filter, a: Authorization)
    ensures a in Scan(s, f) <==>
            && (exists k :: k in s.auths && s.auths[k] == a)
            && (f.id.Some? ==> a.id == f.id.value)
            && (f.id.None? && f.token.Some? ==> a.token == f.token.value)
            && (f.id.None? && f.token.None? && f.org.Some? ==> a.org == f.org.value)
            && (f.id.None? && f.token.None? && f.user.Some? ==> a.user == f.user.value)
  {
    var ks := Select(Passes(s, f), SortedKeys(s.auths.Keys));
    if a in Scan(s, f) {
      var i :| 0 <= i < |ks| && Scan(s, f)[i] == a;
      assert ks[i] in ks;
    }
    if k :| k in s.auths && s.auths[k] == a && Accepts(f, a) {
      assert k in ks;
      var i :| 0 <= i < |ks| && ks[i] == k;
      assert Scan(s, f)[i] == a;
    }
  }
}
