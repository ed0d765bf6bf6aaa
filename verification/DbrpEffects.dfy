/** What readers see after a DBRP call. */
module DbrpEffects {
  import opened Wrappers
  import opened Bytes
  import opened Ids
  import opened KvIndex
  import opened Dbrp

  /** A created mapping is found as given, as the default if asked for or if it is the
      first of its database. */
  lemma CreateThenFind(s: Store, m: Mapping)
    requires Inv(s) && Valid(m.id) && Valid(m.org) && NoSlash(m.database) && Enc(m.id) !in s.mappings
    ensures var first := ForeignKey(m) !in s.defaults;
            Lookup(CreateWrite(s, m), m.org, m.id, None) == Ok(m.(isDefault := m.isDefault || first))
  {
    assert ForeignKey(m) in s.defaults ==> s.defaults[ForeignKey(m)] != Enc(m.id);
  }

  /** Other mappings stay as they are, and keep their default unless it moved to the
      created one. */
  lemma CreateLeavesOthers(s: Store, m: Mapping, k: Key)
    requires KeyedById(s) && DefaultsExact(s) && k in s.mappings
    requires Valid(m.id) && Valid(m.org) && NoSlash(m.database) && Enc(m.id) !in s.mappings
    ensures var t := CreateWrite(s, m);
            && k in t.mappings && t.mappings[k] == s.mappings[k]
            && Overlay(t, t.mappings[k]).isDefault ==
               (Overlay(s, s.mappings[k]).isDefault && !(m.isDefault && ForeignKey(s.mappings[k]) == ForeignKey(m)))
  {
    var t := CreateWrite(s, m);
    assert k == Enc(s.mappings[k].id) && k != Enc(m.id);
    assert t.mappings[k] == s.mappings[k];
    assert ForeignKey(s.mappings[k]) in s.defaults;
  }

  /** An updated mapping keeps id, organization, bucket and database; giving up the
      default hands it to the first other mapping, and is in vain when there is none. */
  lemma UpdateThenFind(s: Store, m: Mapping)
    requires Inv(s) && Valid(m.id) && Enc(m.id) in s.mappings && s.mappings[Enc(m.id)].org == m.org
    ensures var was := Lookup(s, m.org, m.id, None).value;
            var t := UpdateWrite(s, m, was);
            var others := Others(s, ForeignKey(was), Enc(m.id));
            && Lookup(t, m.org, m.id, None) ==
               Ok(Frozen(m, was).(isDefault := m.isDefault || (was.isDefault && others == {})))
            && (!m.isDefault && was.isDefault && others != {} ==>
                  Overlay(t, t.mappings[Least(others)]).isDefault)
            && t.mappings - {Enc(m.id)} == s.mappings - {Enc(m.id)}
  {
    var was := Lookup(s, m.org, m.id, None).value;
    EncInjective(m.id, was.id);
    UpdatedIsFound(s, m, was);
    if !m.isDefault && was.isDefault && Others(s, ForeignKey(was), Enc(m.id)) != {} { UpdateHandsDefaultOn(s, m, was); }
  }

  lemma UpdatedIsFound(s: Store, m: Mapping, was: Mapping)
    requires DefaultsExact(s) && Valid(m.id) && Enc(m.id) in s.mappings
    requires was.id == m.id && was.org == m.org && was == Overlay(s, s.mappings[Enc(m.id)])
    ensures Lookup(UpdateWrite(s, m, was), m.org, m.id, None) ==
            Ok(Frozen(m, was).(isDefault := m.isDefault
                                            || (was.isDefault && Others(s, ForeignKey(was), Enc(m.id)) == {})))
  {
    var others := Others(s, ForeignKey(was), Enc(m.id));
    assert ForeignKey(Frozen(m, was)) == ForeignKey(was);
    if others != {} { assert Least(others) in others; }
  }

  lemma UpdateHandsDefaultOn(s: Store, m: Mapping, was: Mapping)
    requires KeyedById(s) && Valid(was.id) && !m.isDefault && was.isDefault
    requires Others(s, ForeignKey(was), Enc(was.id)) != {}
    ensures var t := UpdateWrite(s, m, was);
            var first := Least(Others(s, ForeignKey(was), Enc(was.id)));
            first in t.mappings && Overlay(t, t.mappings[first]).isDefault
  {
    var first := Least(Others(s, ForeignKey(was), Enc(was.id)));
    assert first in Others(s, ForeignKey(was), Enc(was.id));
  }

  /** A deleted mapping is gone, every other one stays, and the default passes to the
      first other mapping of the database if the deleted one had it. */
  lemma DeleteThenFind(s: Store, org: Id, id: Id)
    requires Inv(s) && Valid(org) && Lookup(s, org, id, None).Ok?
    ensures var was := Lookup(s, org, id, None).value;
            var t := DeleteWrite(s, org, id, was);
            var others := Others(s, ForeignKey(was), Enc(id));
            && Lookup(t, org, id, None) == Err(NotFound)
            && t.mappings == s.mappings - {Enc(id)}
            && (was.isDefault && others != {} ==> Overlay(t, t.mappings[Least(others)]).isDefault)
            && (was.isDefault && others == {} ==> ForeignKey(was) !in t.defaults)
            && (!was.isDefault ==> t.defaults == s.defaults)
  {
    var was := Lookup(s, org, id, None).value;
    EncInjective(id, was.id);
    var others := Others(s, ForeignKey(was), Enc(id));
    if others != {} { assert Least(others) in others; }
  }

  // ------------------------------------------------------------- answers

  /** Another stored mapping has this organization, database and policy. */
  predicate HeldByOther(s: Store, k: Key, id: Id, org: Id, db: Key, rp: Key) {
    k in s.mappings && s.mappings[k].id != id && s.mappings[k].org == org && s.mappings[k].database == db
    && s.mappings[k].rp == rp
  }

  lemma TakenIff(s: Store, m: Mapping)
    requires KeyedById(s) && Valid(m.org)
    ensures Taken(s, m) <==> exists k :: HeldByOther(s, k, m.id, m.org, m.database, m.rp)
  {
    if Taken(s, m) {
      var k :| k in s.mappings && s.mappings[k].id != m.id && ForeignKey(s.mappings[k]) == ForeignKey(m)
               && s.mappings[k].rp == m.rp;
      ComposeInjective(s.mappings[k].org, s.mappings[k].database, m.org, m.database);
      assert HeldByOther(s, k, m.id, m.org, m.database, m.rp);
    }
    if k :| HeldByOther(s, k, m.id, m.org, m.database, m.rp) {
      assert ForeignKey(s.mappings[k]) == ForeignKey(m);
    }
  }

  /** A name made of printable characters that is no path step and holds no separator. */
  predicate GoodName(printable: Key -> bool, n: Key) {
    printable(n) && n != [] && n != [46] && n != [46, 46] && forall i :: 0 <= i < |n| ==> n[i] != 47 && n[i] != 92
  }

  predicate GoodRequest(printable: Key -> bool, m: Mapping) {
    GoodName(printable, m.database) && GoodName(printable, m.rp) && m.org != 0 && m.bucket != 0
  }

  /** When Create is refused, and with what; a refusal changes nothing. */
  lemma CreateAnswers(printable: Key -> bool, s: Store, m: Mapping, bucketFound: bool, virt: Option<Bucket>)
    requires Inv(s)
    ensures var (t, e) := CreateStep(printable, s, m, bucketFound, virt);
            var own := m.id != 0 && Enc(m.id) in s.mappings && s.mappings[Enc(m.id)].org == m.org
                       && !s.mappings[Enc(m.id)].virtual;
            var held := exists k :: HeldByOther(s, k, m.id, m.org, m.database, m.rp);
            && e == (if !GoodRequest(printable, m) then Some(InvalidMapping)
                     else if !bucketFound then Some(BucketNotFound)
                     else if own || held then Some(AlreadyExists)
                     else if m.id == 0 then Some(InvalidDbrpId)
                     else None)
            && (e.Some? ==> t == s)
            && (e.None? ==> t == CreateWrite(s, m))
  {
    assert GoodRequest(printable, m) <==> Validate(printable, m);
    if Valid(m.org) { TakenIff(s, m); }
  }

  /** An accepted Update stores the requested policy and flags with the id, organization,
      bucket and database of the mapping it found, stored or virtual. */
  lemma UpdateStores(printable: Key -> bool, s: Store, m: Mapping, virt: Option<Bucket>)
    requires UpdateStep(printable, s, m, virt).1 == None
    ensures var t := UpdateStep(printable, s, m, virt).0;
            var was := Lookup(s, m.org, m.id, virt).value;
            && Valid(was.id) && Enc(was.id) in t.mappings
            && var now := t.mappings[Enc(was.id)];
            && now.rp == m.rp && now.virtual == m.virtual && now.isDefault == m.isDefault
            && now.id == was.id && now.org == was.org && now.bucket == was.bucket && now.database == was.database
  {
  }

  /** After an accepted Update of a stored mapping readers find it with the requested policy,
      and otherwise as it was but for its flags. */
  lemma UpdateThenFindFields(printable: Key -> bool, s: Store, m: Mapping, virt: Option<Bucket>)
    requires Inv(s) && UpdateStep(printable, s, m, virt).1 == None
    requires Valid(m.id) && Enc(m.id) in s.mappings && s.mappings[Enc(m.id)].org == m.org
    ensures var was := s.mappings[Enc(m.id)];
            var now := Lookup(UpdateStep(printable, s, m, virt).0, m.org, m.id, virt);
            && now.Ok? && now.value.rp == m.rp && now.value.virtual == m.virtual
            && now.value.id == was.id && now.value.org == was.org
            && now.value.bucket == was.bucket && now.value.database == was.database
  {
    EncInjective(m.id, s.mappings[Enc(m.id)].id);
    UpdateStores(printable, s, m, virt);
  }

  /** When an Update is refused, and with what; a refusal changes nothing. */
  lemma UpdateAnswers(printable: Key -> bool, s: Store, m: Mapping, virt: Option<Bucket>)
    requires Inv(s) && (virt.Some? ==> virt.value.org != 0)
    ensures var (t, e) := UpdateStep(printable, s, m, virt);
            var stored := m.id != 0 && Enc(m.id) in s.mappings && s.mappings[Enc(m.id)].org == m.org;
            var found := Lookup(s, m.org, m.id, virt);
            && e == (if !GoodRequest(printable, m) then Some(InvalidMapping)
                     else if !stored && (m.id == 0 || virt.None?) then Some(NotFound)
                     else if exists k :: HeldByOther(s, k, found.value.id, found.value.org, found.value.database, m.rp)
                     then Some(AlreadyExists)
                     else if found.value.id == 0 || found.value.bucket == 0 then Some(Internal)
                     else None)
            && (e.Some? ==> t == s)
  {
    assert GoodRequest(printable, m) <==> Validate(printable, m);
    var found := Lookup(s, m.org, m.id, virt);
    if found.Ok? && Valid(m.org) { TakenIff(s, Frozen(m, found.value)); }
  }

  /** Deleting what is not there succeeds and changes nothing; so does a refusal for the
      zero organization. */
  lemma DeleteAnswers(s: Store, org: Id, id: Id, virt: Option<Bucket>)
    requires Inv(s)
    ensures var (t, e) := DeleteStep(s, org, id, virt);
            var there := id != 0 && ((Enc(id) in s.mappings && s.mappings[Enc(id)].org == org) || virt.Some?);
            && e == (if there && org == 0 then Some(Internal) else None)
            && (!there || org == 0 ==> t == s)
            && (there && org != 0 ==> Enc(id) !in t.mappings)
  {
  }

  /** FindByID: the stored mapping of the organization with the flag of the default bucket,
      else the bucket's mapping, else an error. */
  lemma LookupAnswers(s: Store, org: Id, id: Id, bucket: Option<Bucket>)
    requires Inv(s)
    ensures var r := Lookup(s, org, id, bucket);
            if id == 0 then r == Err(InvalidDbrpId)
            else if Enc(id) in s.mappings && s.mappings[Enc(id)].org == org then
              var m := s.mappings[Enc(id)];
              r.Ok? && r.value == m.(isDefault := r.value.isDefault)
              && (r.value.isDefault <==> s.defaults[ForeignKey(m)] == Enc(id))
            else if bucket.None? then r == Err(NotFound)
            else r.Ok? && r.value.virtual && r.value.id == bucket.value.id && r.value.org == bucket.value.org
                 && r.value.bucket == bucket.value.id
  {
    if id != 0 && Enc(id) in s.mappings { EncInjective(id, s.mappings[Enc(id)].id); }
  }
}
