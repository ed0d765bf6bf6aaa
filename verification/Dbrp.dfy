/** DBRP mappings: the store's four buckets, what Create, Update and Delete do to
    them, and exactly when they keep the service's invariant. */
module Dbrp {
  import opened Wrappers
  import opened Bytes
  import opened Ids
  import opened KvIndex

  /** A database/retention-policy pair of an organization and the bucket it names. */
  datatype Mapping = Mapping(id: Id, database: Key, rp: Key, isDefault: bool, virtual: bool, org: Id, bucket: Id)

  datatype Bucket = Bucket(id: Id, org: Id, name: Key)

  datatype Error = InvalidMapping | BucketNotFound | AlreadyExists | InvalidDbrpId | NotFound | Internal

  /** The mapping bucket, the two index buckets and the default bucket. */
  datatype Store = Store(mappings: map<Key, Mapping>, byOrgDb: map<Key, Key>, byOrg: map<Key, Key>,
                         defaults: map<Key, Key>)

  const EMPTY := Store(map[], map[], map[], map[])

  function ComposeForeignKey(org: Id, db: Key): Key {
    (if Valid(org) then Enc(org) else []) + db
  }

  function ForeignKey(m: Mapping): Key {
    ComposeForeignKey(m.org, m.database)
  }

  /** An encoded organization has a fixed length, so the two parts never blur. */
  lemma ComposeInjective(o1: Id, d1: Key, o2: Id, d2: Key)
    requires Valid(o1) && Valid(o2)
    requires ComposeForeignKey(o1, d1) == ComposeForeignKey(o2, d2)
    ensures o1 == o2 && d1 == d2
  {
    var k := ComposeForeignKey(o1, d1);
    assert k[..ID_LENGTH] == Enc(o1) && k[..ID_LENGTH] == Enc(o2);
    assert k[ID_LENGTH..] == d1 && k[ID_LENGTH..] == d2;
    EncInjective(o1, o2);
  }

  lemma EncNoSlash(i: Id)
    requires Valid(i)
    ensures NoSlash(Enc(i))
  {
    HexAlphabet(i, ID_LENGTH);
  }

  lemma ForeignKeyNoSlash(m: Mapping)
    requires NoSlash(m.database)
    ensures NoSlash(ForeignKey(m))
  {
    if Valid(m.org) { EncNoSlash(m.org); }
  }

  const BACKSLASH: Byte := 92
  const DOT: Byte := 46

  /** `printable` is unicode.IsPrint on every rune of the name. */
  predicate ValidName(printable: Key -> bool, name: Key) {
    printable(name) && name != [] && name != [DOT] && name != [DOT, DOT] && SLASH !in name && BACKSLASH !in name
  }

  predicate Validate(printable: Key -> bool, m: Mapping) {
    ValidName(printable, m.database) && ValidName(printable, m.rp) && Valid(m.org) && Valid(m.bucket)
  }

  const AUTOGEN: Key := [97, 117, 116, 111, 103, 101, 110]

  /** Database and retention policy of a bucket name, cut at its first slash. */
  function ParseDbrp(name: Key): (r: (Key, Key))
    ensures NoSlash(r.0)
    ensures NoSlash(name) ==> r == (name, [97, 117, 116, 111, 103, 101, 110])
    ensures !NoSlash(name) ==> name == r.0 + [SLASH] + r.1
  {
    var parts := KeyParts(name);
    assert parts.Some? ==> !NoSlash(name);
    if parts.Some? then parts.value else (name, AUTOGEN)
  }

  function BucketToMapping(b: Bucket): (m: Mapping)
    ensures m.virtual && m.id == b.id && m.org == b.org && m.bucket == b.id && NoSlash(m.database)
    ensures m.isDefault <==> NoSlash(b.name)
  {
    var (db, rp) := ParseDbrp(b.name);
    assert !NoSlash(b.name) ==> |db| < |b.name|;
    Mapping(b.id, db, rp, b.name == db, true, b.org, b.id)
  }

  // ---------------------------------------------------------------- invariant

  predicate SameTriple(a: Mapping, b: Mapping) {
    a.org == b.org && a.database == b.database && a.rp == b.rp
  }

  ghost predicate KeyedById(s: Store) {
    forall k :: k in s.mappings ==>
      && Valid(s.mappings[k].id) && k == Enc(s.mappings[k].id)
      && Valid(s.mappings[k].org) && NoSlash(s.mappings[k].database)
  }

  /** Each organization, database and retention policy is mapped at most once. */
  ghost predicate TriplesUnique(s: Store) {
    forall j, k :: j in s.mappings && k in s.mappings && j != k ==> !SameTriple(s.mappings[j], s.mappings[k])
  }

  /** Both indexes list exactly the stored ids under their foreign keys. */
  ghost predicate IndexesExact(s: Store) {
    && WellFormed(s.byOrgDb) && WellFormed(s.byOrg)
    && (forall f, p :: Lists(s.byOrgDb, f, p) <==> p in s.mappings && ForeignKey(s.mappings[p]) == f)
    && (forall f, p :: Lists(s.byOrg, f, p) <==>
          p in s.mappings && Valid(s.mappings[p].org) && Enc(s.mappings[p].org) == f)
  }

  /** A database has a default entry exactly when it has a mapping, and it names one. */
  ghost predicate DefaultsExact(s: Store) {
    && (forall f :: f in s.defaults ==> s.defaults[f] in s.mappings && ForeignKey(s.mappings[s.defaults[f]]) == f)
    && (forall k :: k in s.mappings ==> ForeignKey(s.mappings[k]) in s.defaults)
  }

  ghost predicate Inv(s: Store) {
    KeyedById(s) && TriplesUnique(s) && IndexesExact(s) && DefaultsExact(s)
  }

  lemma EmptyInv()
    ensures Inv(EMPTY)
  {
  }

  /** The mapping as readers see it, with the default flag of the default bucket. */
  function Overlay(s: Store, m: Mapping): Mapping {
    m.(isDefault := Valid(m.id) && ForeignKey(m) in s.defaults && s.defaults[ForeignKey(m)] == Enc(m.id))
  }

  ghost predicate ShownDefault(s: Store, org: Id, db: Key, k: Key) {
    k in s.mappings && s.mappings[k].org == org && s.mappings[k].database == db && Overlay(s, s.mappings[k]).isDefault
  }

  /** Every organization and database with a mapping shows one default, and only one. */
  lemma ExactlyOneDefault(s: Store, k: Key)
    requires Inv(s) && k in s.mappings
    ensures exists d :: ShownDefault(s, s.mappings[k].org, s.mappings[k].database, d)
    ensures forall d, e | ShownDefault(s, s.mappings[k].org, s.mappings[k].database, d)
                          && ShownDefault(s, s.mappings[k].org, s.mappings[k].database, e) :: d == e
  {
    var d := s.defaults[ForeignKey(s.mappings[k])];
    ComposeInjective(s.mappings[d].org, s.mappings[d].database, s.mappings[k].org, s.mappings[k].database);
    assert ShownDefault(s, s.mappings[k].org, s.mappings[k].database, d);
  }

  // --------------------------------------------------------------- operations

  /** FindByID: the stored mapping of this organization, else the bucket as a virtual one. */
  function Lookup(s: Store, org: Id, id: Id, bucket: Option<Bucket>): Result<Mapping, Error> {
    if !Valid(id) then Err(InvalidDbrpId)
    else if Enc(id) in s.mappings && s.mappings[Enc(id)].org == org then Ok(Overlay(s, s.mappings[Enc(id)]))
    else if bucket.Some? then Ok(BucketToMapping(bucket.value))
    else Err(NotFound)
  }

  /** Another stored mapping already has this triple. */
  ghost predicate Taken(s: Store, m: Mapping) {
    exists k :: k in s.mappings && s.mappings[k].id != m.id && ForeignKey(s.mappings[k]) == ForeignKey(m)
                && s.mappings[k].rp == m.rp
  }

  /** The other mappings of a database. */
  function Others(s: Store, f: Key, skip: Key): set<Key> {
    set k | k in s.mappings && ForeignKey(s.mappings[k]) == f && k != skip
  }

  ghost function CreateGuard(printable: Key -> bool, s: Store, m: Mapping, bucketFound: bool, virt: Option<Bucket>):
    Option<Error>
  {
    var found := Lookup(s, m.org, m.id, virt);
    if !Validate(printable, m) then Some(InvalidMapping)
    else if !bucketFound then Some(BucketNotFound)
    else if found.Ok? && !found.value.virtual then Some(AlreadyExists)
    else if Taken(s, m) then Some(AlreadyExists)
    else if !Valid(m.id) then Some(InvalidDbrpId)
    else None
  }

  /** What a Create that passed its checks writes. */
  function CreateWrite(s: Store, m: Mapping): (r: Store)
    requires Valid(m.id) && Valid(m.org) && NoSlash(m.database)
  {
    var k, f := Enc(m.id), ForeignKey(m);
    EncNoSlash(m.id);
    EncNoSlash(m.org);
    ForeignKeyNoSlash(m);
    var stored := m.(isDefault := m.isDefault || f !in s.defaults);
    Store(s.mappings[k := stored],
          Insert(s.byOrgDb, f, k).value,
          Insert(s.byOrg, Enc(m.org), k).value,
          if stored.isDefault then s.defaults[f := k] else s.defaults)
  }

  ghost function CreateStep(printable: Key -> bool, s: Store, m: Mapping, bucketFound: bool, virt: Option<Bucket>):
    (Store, Option<Error>)
  {
    var e := CreateGuard(printable, s, m, bucketFound, virt);
    if e.Some? then (s, e) else (CreateWrite(s, m), None)
  }

  /** The mapping an Update stores: only policy, flags and nothing else may change. */
  function Frozen(m: Mapping, was: Mapping): Mapping {
    m.(id := was.id, org := was.org, bucket := was.bucket, database := was.database)
  }

  ghost function UpdateGuard(printable: Key -> bool, s: Store, m: Mapping, virt: Option<Bucket>): Option<Error> {
    var found := Lookup(s, m.org, m.id, virt);
    if !Validate(printable, m) then Some(InvalidMapping)
    else if found.Err? then Some(NotFound)
    else if Taken(s, Frozen(m, found.value)) then Some(AlreadyExists)
    else if !Valid(found.value.id) || !Valid(found.value.org) || !Valid(found.value.bucket) then Some(Internal)
    else None
  }

  function UpdateWrite(s: Store, m: Mapping, was: Mapping): Store
    requires Valid(was.id)
  {
    var n := Frozen(m, was);
    var k, f := Enc(n.id), ForeignKey(n);
    var others := Others(s, f, k);
    s.(mappings := s.mappings[k := n],
       defaults := if n.isDefault then s.defaults[f := k]
                   else if was.isDefault && others != {} then s.defaults[f := Least(others)]
                   else s.defaults)
  }

  ghost function UpdateStep(printable: Key -> bool, s: Store, m: Mapping, virt: Option<Bucket>):
    (Store, Option<Error>)
  {
    var e := UpdateGuard(printable, s, m, virt);
    if e.Some? then (s, e) else (UpdateWrite(s, m, Lookup(s, m.org, m.id, virt).value), None)
  }

  function DeleteWrite(s: Store, org: Id, id: Id, was: Mapping): Store
    requires Valid(id) && Valid(org) && NoSlash(was.database)
  {
    var k, f := Enc(id), ForeignKey(was);
    var others := Others(s, f, k);
    EncNoSlash(id);
    EncNoSlash(org);
    ForeignKeyNoSlash(was);
    Store(s.mappings - {k},
          KvIndex.Delete(s.byOrgDb, f, k).value,
          KvIndex.Delete(s.byOrg, Enc(org), k).value,
          if !was.isDefault then s.defaults
          else if others != {} then s.defaults[f := Least(others)]
          else s.defaults - {f})
  }

  /** Deleting what cannot be found is not an error. */
  ghost function DeleteStep(s: Store, org: Id, id: Id, virt: Option<Bucket>): (Store, Option<Error>) {
    var found := Lookup(s, org, id, virt);
    if found.Err? then (s, None)
    else if !Valid(org) || !NoSlash(found.value.database) then (s, Some(Internal))
    else (DeleteWrite(s, org, id, found.value), None)
  }

  // ------------------------------------------------- when the invariant is kept

  // The writes run in a transaction of their own, after the checks and reads. The
  // conditions below are about the store they find, whatever the checks saw before.

  /** The write of a Create keeps the invariant exactly when nobody else has the triple
      and its id is new or already stands for a mapping of the same organization and
      database. */
  lemma CreateKeepsInvariantIff(s: Store, m: Mapping)
    requires Inv(s) && Valid(m.id) && Valid(m.org) && NoSlash(m.database)
    ensures Inv(CreateWrite(s, m)) <==>
            !Taken(s, m) && (Enc(m.id) in s.mappings ==> ForeignKey(s.mappings[Enc(m.id)]) == ForeignKey(m))
  {
    var t := CreateWrite(s, m);
    var k := Enc(m.id);
    EncNoSlash(m.id);
    EncNoSlash(m.org);
    ForeignKeyNoSlash(m);
    if Taken(s, m) {
      TakenTwice(s, t, k);
    } else if k in s.mappings && ForeignKey(s.mappings[k]) != ForeignKey(m) {
      StaleEntry(s, t, k, ForeignKey(m));
    } else {
      PutKeepsTriples(s, t, k);
      CreateIndexes(s, m);
      CreateDefaults(s, m);
    }
  }

  /** Storing a triple somebody else has makes it stand twice. */
  lemma TakenTwice(s: Store, t: Store, k: Key)
    requires KeyedById(s) && k in t.mappings && t.mappings == s.mappings[k := t.mappings[k]]
    requires Valid(t.mappings[k].id) && k == Enc(t.mappings[k].id) && Valid(t.mappings[k].org)
    requires Taken(s, t.mappings[k])
    ensures !TriplesUnique(t)
  {
    var m := t.mappings[k];
    var j :| j in s.mappings && s.mappings[j].id != m.id && ForeignKey(s.mappings[j]) == ForeignKey(m)
             && s.mappings[j].rp == m.rp;
    if j == k { EncInjective(s.mappings[j].id, m.id); }
    ComposeInjective(s.mappings[j].org, s.mappings[j].database, m.org, m.database);
    assert SameTriple(t.mappings[j], t.mappings[k]);
  }

  /** The index still lists the mapping where it used to be. */
  lemma StaleEntry(s: Store, t: Store, k: Key, f: Key)
    requires IndexesExact(s) && k in s.mappings && ForeignKey(s.mappings[k]) != f && NoSlash(f) && NoSlash(k)
    requires k in t.mappings && ForeignKey(t.mappings[k]) == f && t.byOrgDb == Insert(s.byOrgDb, f, k).value
    ensures !IndexesExact(t)
  {
    assert Lists(s.byOrgDb, ForeignKey(s.mappings[k]), k);
    assert Lists(t.byOrgDb, ForeignKey(s.mappings[k]), k);
  }

  lemma CreateDefaults(s: Store, m: Mapping)
    requires DefaultsExact(s) && Valid(m.id) && Valid(m.org) && NoSlash(m.database)
    requires Enc(m.id) in s.mappings ==> ForeignKey(s.mappings[Enc(m.id)]) == ForeignKey(m)
    ensures DefaultsExact(CreateWrite(s, m))
  {
    var t := CreateWrite(s, m);
    assert ForeignKey(t.mappings[Enc(m.id)]) == ForeignKey(m);
  }

  /** Storing one mapping whose triple nobody else has keeps triples unique. */
  lemma PutKeepsTriples(s: Store, t: Store, k: Key)
    requires KeyedById(s) && TriplesUnique(s) && k in t.mappings && t.mappings == s.mappings[k := t.mappings[k]]
    requires Valid(t.mappings[k].id) && k == Enc(t.mappings[k].id)
    requires Valid(t.mappings[k].org) && NoSlash(t.mappings[k].database)
    requires !Taken(s, t.mappings[k])
    ensures KeyedById(t) && TriplesUnique(t)
  {
    forall j | j in s.mappings && j != k
      ensures !SameTriple(s.mappings[j], t.mappings[k])
    {
      assert s.mappings[j].id != t.mappings[k].id;
    }
  }

  lemma CreateIndexes(s: Store, m: Mapping)
    requires KeyedById(s) && IndexesExact(s) && Valid(m.id) && Valid(m.org) && NoSlash(m.database)
    requires Enc(m.id) in s.mappings ==> ForeignKey(s.mappings[Enc(m.id)]) == ForeignKey(m)
    ensures IndexesExact(CreateWrite(s, m))
  {
    var t := CreateWrite(s, m);
    var k := Enc(m.id);
    EncNoSlash(m.id);
    EncNoSlash(m.org);
    ForeignKeyNoSlash(m);
    if k in s.mappings {
      ComposeInjective(s.mappings[k].org, s.mappings[k].database, m.org, m.database);
    }
    CreateByOrgDb(s, t, k, ForeignKey(m));
    CreateByOrg(s, t, k, m.org);
  }

  lemma CreateByOrgDb(s: Store, t: Store, k: Key, f: Key)
    requires NoSlash(f) && NoSlash(k) && k in t.mappings && t.mappings == s.mappings[k := t.mappings[k]]
    requires t.byOrgDb == Insert(s.byOrgDb, f, k).value
    requires ForeignKey(t.mappings[k]) == f && (k in s.mappings ==> ForeignKey(s.mappings[k]) == f)
    requires forall g, p :: Lists(s.byOrgDb, g, p) <==> p in s.mappings && ForeignKey(s.mappings[p]) == g
    ensures forall g, p :: Lists(t.byOrgDb, g, p) <==> p in t.mappings && ForeignKey(t.mappings[p]) == g
  {
  }

  lemma CreateByOrg(s: Store, t: Store, k: Key, org: Id)
    requires Valid(org) && NoSlash(Enc(org)) && NoSlash(k)
    requires k in t.mappings && t.mappings == s.mappings[k := t.mappings[k]]
    requires t.byOrg == Insert(s.byOrg, Enc(org), k).value
    requires t.mappings[k].org == org && (k in s.mappings ==> s.mappings[k].org == org)
    requires forall g, p :: Lists(s.byOrg, g, p) <==>
               p in s.mappings && Valid(s.mappings[p].org) && Enc(s.mappings[p].org) == g
    ensures forall g, p :: Lists(t.byOrg, g, p) <==>
              p in t.mappings && Valid(t.mappings[p].org) && Enc(t.mappings[p].org) == g
  {
  }

  /** The write of an Update keeps the invariant exactly when nobody else has the triple
      and the id stands for a stored mapping of the organization and database it was
      found under: updating a virtual mapping stores it without index entries. */
  lemma UpdateKeepsInvariantIff(s: Store, m: Mapping, was: Mapping)
    requires Inv(s) && Valid(was.id) && Valid(was.org) && NoSlash(was.database)
    ensures Inv(UpdateWrite(s, m, was)) <==>
            && !Taken(s, Frozen(m, was))
            && Enc(was.id) in s.mappings && ForeignKey(s.mappings[Enc(was.id)]) == ForeignKey(was)
  {
    var t := UpdateWrite(s, m, was);
    var k := Enc(was.id);
    if Taken(s, Frozen(m, was)) {
      TakenTwice(s, t, k);
    } else if k in s.mappings && ForeignKey(s.mappings[k]) == ForeignKey(was) {
      ComposeInjective(s.mappings[k].org, s.mappings[k].database, was.org, was.database);
      PutKeepsTriples(s, t, k);
      UpdateIndexes(s, t, k);
      UpdateDefaults(s, m, was);
    } else {
      assert !Lists(t.byOrgDb, ForeignKey(was), k);
      assert !IndexesExact(t);
    }
  }

  lemma UpdateIndexes(s: Store, t: Store, k: Key)
    requires IndexesExact(s) && k in s.mappings && k in t.mappings
    requires t.mappings == s.mappings[k := t.mappings[k]] && t.byOrgDb == s.byOrgDb && t.byOrg == s.byOrg
    requires t.mappings[k].org == s.mappings[k].org && t.mappings[k].database == s.mappings[k].database
    ensures IndexesExact(t)
  {
  }

  lemma UpdateDefaults(s: Store, m: Mapping, was: Mapping)
    requires DefaultsExact(s) && Valid(was.id)
    requires Enc(was.id) in s.mappings && ForeignKey(s.mappings[Enc(was.id)]) == ForeignKey(was)
    ensures DefaultsExact(UpdateWrite(s, m, was))
  {
    var t := UpdateWrite(s, m, was);
    var k, f := Enc(was.id), ForeignKey(was);
    assert forall j :: j in s.mappings ==> ForeignKey(t.mappings[j]) == ForeignKey(s.mappings[j]);
    var others := Others(s, f, k);
    if others != {} { assert Least(others) in others; }
    DefaultMoved(s, t, f);
  }

  /** A default entry may move to any mapping of its database. */
  lemma DefaultMoved(s: Store, t: Store, f: Key)
    requires DefaultsExact(s) && t.mappings.Keys == s.mappings.Keys
    requires forall j :: j in s.mappings ==> ForeignKey(t.mappings[j]) == ForeignKey(s.mappings[j])
    requires t.defaults == s.defaults
             || exists d :: d in s.mappings && ForeignKey(s.mappings[d]) == f && t.defaults == s.defaults[f := d]
    ensures DefaultsExact(t)
  {
  }

  /** The write of a Delete keeps the invariant exactly when a mapping stored under the
      id belongs to the named organization, still has the database read before and has
      not become the default since: otherwise index entries or a default stay behind. */
  lemma DeleteKeepsInvariantIff(s: Store, org: Id, id: Id, was: Mapping)
    requires Inv(s) && Valid(org) && Valid(id) && NoSlash(was.database)
    ensures Inv(DeleteWrite(s, org, id, was)) <==>
            (Enc(id) in s.mappings ==>
               var m := s.mappings[Enc(id)];
               m.org == org && ForeignKey(m) == ForeignKey(was) && (Overlay(s, m).isDefault ==> was.isDefault))
  {
    var t := DeleteWrite(s, org, id, was);
    var k := Enc(id);
    EncNoSlash(id);
    EncNoSlash(org);
    ForeignKeyNoSlash(was);
    if k in s.mappings && s.mappings[k].org != org {
      EntryLeftBehind(s, t, k, org);
    } else if k in s.mappings && ForeignKey(s.mappings[k]) != ForeignKey(was) {
      assert Lists(s.byOrgDb, ForeignKey(s.mappings[k]), k);
      assert Lists(t.byOrgDb, ForeignKey(s.mappings[k]), k);
    } else if k in s.mappings && Overlay(s, s.mappings[k]).isDefault && !was.isDefault {
      assert t.defaults[ForeignKey(was)] == k;
    } else {
      DeleteIndexes(s, org, id, was);
      DeleteDefaults(s, org, id, was);
      assert KeyedById(t) && TriplesUnique(t);
    }
  }

  /** An organization's index still lists a mapping that is gone. */
  lemma EntryLeftBehind(s: Store, t: Store, k: Key, org: Id)
    requires KeyedById(s) && IndexesExact(s) && Valid(org) && k in s.mappings && s.mappings[k].org != org
    requires NoSlash(Enc(org)) && NoSlash(k)
    requires k !in t.mappings && t.byOrg == KvIndex.Delete(s.byOrg, Enc(org), k).value
    ensures !IndexesExact(t)
  {
    var o := s.mappings[k].org;
    if Enc(o) == Enc(org) { EncInjective(o, org); }
    assert Lists(s.byOrg, Enc(o), k);
    assert Lists(t.byOrg, Enc(o), k);
  }

  lemma DeleteIndexes(s: Store, org: Id, id: Id, was: Mapping)
    requires IndexesExact(s) && Valid(org) && Valid(id) && NoSlash(was.database)
    requires Enc(id) in s.mappings ==>
               s.mappings[Enc(id)].org == org && ForeignKey(s.mappings[Enc(id)]) == ForeignKey(was)
    ensures IndexesExact(DeleteWrite(s, org, id, was))
  {
    var t := DeleteWrite(s, org, id, was);
    EncNoSlash(id);
    EncNoSlash(org);
    ForeignKeyNoSlash(was);
    DeleteByOrgDb(s, t, Enc(id), ForeignKey(was));
    DeleteByOrg(s, t, Enc(id), org);
  }

  lemma DeleteByOrgDb(s: Store, t: Store, k: Key, f: Key)
    requires NoSlash(f) && NoSlash(k) && t.mappings == s.mappings - {k}
    requires t.byOrgDb == KvIndex.Delete(s.byOrgDb, f, k).value
    requires k in s.mappings ==> ForeignKey(s.mappings[k]) == f
    requires forall g, p :: Lists(s.byOrgDb, g, p) <==> p in s.mappings && ForeignKey(s.mappings[p]) == g
    ensures forall g, p :: Lists(t.byOrgDb, g, p) <==> p in t.mappings && ForeignKey(t.mappings[p]) == g
  {
  }

  lemma DeleteByOrg(s: Store, t: Store, k: Key, org: Id)
    requires Valid(org) && NoSlash(Enc(org)) && NoSlash(k) && t.mappings == s.mappings - {k}
    requires t.byOrg == KvIndex.Delete(s.byOrg, Enc(org), k).value
    requires k in s.mappings ==> s.mappings[k].org == org
    requires forall g, p :: Lists(s.byOrg, g, p) <==>
               p in s.mappings && Valid(s.mappings[p].org) && Enc(s.mappings[p].org) == g
    ensures forall g, p :: Lists(t.byOrg, g, p) <==>
              p in t.mappings && Valid(t.mappings[p].org) && Enc(t.mappings[p].org) == g
  {
  }

  lemma DeleteDefaults(s: Store, org: Id, id: Id, was: Mapping)
    requires KeyedById(s) && DefaultsExact(s) && Valid(org) && Valid(id) && NoSlash(was.database)
    requires Enc(id) in s.mappings ==>
               && ForeignKey(s.mappings[Enc(id)]) == ForeignKey(was)
               && (Overlay(s, s.mappings[Enc(id)]).isDefault ==> was.isDefault)
    ensures DefaultsExact(DeleteWrite(s, org, id, was))
  {
    var k, f := Enc(id), ForeignKey(was);
    assert !was.isDefault ==> forall g :: g in s.defaults ==> s.defaults[g] != k;
    DefaultsAfterRemoval(s, DeleteWrite(s, org, id, was), k, f, was.isDefault);
  }

  /** Handing the default on, or dropping it with the last mapping of its database. */
  lemma DefaultsAfterRemoval(s: Store, t: Store, k: Key, f: Key, wasDefault: bool)
    requires DefaultsExact(s) && t.mappings == s.mappings - {k}
    requires k in s.mappings ==> ForeignKey(s.mappings[k]) == f
    requires !wasDefault ==> forall g :: g in s.defaults ==> s.defaults[g] != k
    requires t.defaults == if !wasDefault then s.defaults
                           else if Others(s, f, k) != {} then s.defaults[f := Least(Others(s, f, k))]
                           else s.defaults - {f}
    ensures DefaultsExact(t)
  {
    var others := Others(s, f, k);
    forall g | g in t.defaults
      ensures t.defaults[g] in t.mappings && ForeignKey(t.mappings[t.defaults[g]]) == g
    {
      if g == f && wasDefault {
        assert t.defaults[g] in others;
      } else {
        assert s.defaults[g] != k;
      }
    }
    forall j | j in t.mappings
      ensures ForeignKey(t.mappings[j]) in t.defaults
    {
      if ForeignKey(t.mappings[j]) == f { assert j in others; }
    }
  }

  // ------------------------------------------------- calls that break it

  predicate AnyName(name: Key) {
    true
  }

  const SAMPLE := Mapping(5, [100], [114], false, false, 2, 9)
  const SAMPLE_STORE := CreateWrite(EMPTY, SAMPLE)

  lemma SampleStoreInv()
    ensures Inv(SAMPLE_STORE) && SAMPLE_STORE.mappings == map[Enc(5) := SAMPLE.(isDefault := true)]
  {
    EmptyInv();
    CreateKeepsInvariantIff(EMPTY, SAMPLE);
  }

  /** Create checks its id within one organization only. */
  lemma CreateMayBreak()
    ensures var r := CreateStep(AnyName, SAMPLE_STORE, SAMPLE.(org := 1), true, None);
            Inv(SAMPLE_STORE) && r.1 == None && !Inv(r.0)
  {
    var m := SAMPLE.(org := 1);
    SampleStoreInv();
    assert Lookup(SAMPLE_STORE, 1, 5, None) == Err(NotFound);
    assert !Taken(SAMPLE_STORE, m);
    assert CreateGuard(AnyName, SAMPLE_STORE, m, true, None) == None;
    if ForeignKey(SAMPLE) == ForeignKey(m) { ComposeInjective(2, [100], 1, [100]); }
    CreateKeepsInvariantIff(SAMPLE_STORE, m);
  }

  /** Update accepts a virtual mapping, which no index lists. */
  lemma UpdateMayBreak()
    ensures var m := Mapping(7, [100], [114], false, false, 1, 7);
            var r := UpdateStep(AnyName, EMPTY, m, Some(Bucket(7, 1, [100])));
            Inv(EMPTY) && r.1 == None && !Inv(r.0)
  {
    EmptyInv();
    var m := Mapping(7, [100], [114], false, false, 1, 7);
    var was := BucketToMapping(Bucket(7, 1, [100]));
    UpdateKeepsInvariantIff(EMPTY, m, was);
  }

  /** Delete through a bucket of the same id removes another organization's mapping. */
  lemma DeleteMayBreak()
    ensures var r := DeleteStep(SAMPLE_STORE, 1, 5, Some(Bucket(5, 1, [100])));
            Inv(SAMPLE_STORE) && r.1 == None && !Inv(r.0)
  {
    SampleStoreInv();
    DeleteKeepsInvariantIff(SAMPLE_STORE, 1, 5, BucketToMapping(Bucket(5, 1, [100])));
  }

  /** Two Creates with new ids that both passed their checks on one store, and then write
      one after the other, keep the invariant exactly when their triples differ. */
  lemma RacingCreatesKeepInvariantIff(printable: Key -> bool, s: Store, a: Mapping, b: Mapping,
                                      virtA: Option<Bucket>, virtB: Option<Bucket>)
    requires Inv(s) && Valid(a.id) && Valid(b.id) && a.id != b.id
    requires Enc(a.id) !in s.mappings && Enc(b.id) !in s.mappings
    requires CreateGuard(printable, s, a, true, virtA) == None && CreateGuard(printable, s, b, true, virtB) == None
    ensures Inv(CreateWrite(CreateWrite(s, a), b)) <==> !SameTriple(a, b)
  {
    var t := CreateWrite(s, a);
    CreateKeepsInvariantIff(s, a);
    CreateKeepsInvariantIff(t, b);
    if Enc(a.id) == Enc(b.id) { EncInjective(a.id, b.id); }
    TakenAfterCreate(s, a, b);
  }

  lemma TakenAfterCreate(s: Store, a: Mapping, b: Mapping)
    requires Valid(a.id) && Valid(a.org) && NoSlash(a.database) && Valid(b.org) && a.id != b.id
    requires Enc(a.id) !in s.mappings && !Taken(s, b)
    ensures Taken(CreateWrite(s, a), b) <==> SameTriple(a, b)
  {
    var t := CreateWrite(s, a);
    var k := Enc(a.id);
    assert t.mappings[k].id == a.id && t.mappings[k].rp == a.rp && ForeignKey(t.mappings[k]) == ForeignKey(a);
    if ForeignKey(a) == ForeignKey(b) { ComposeInjective(a.org, a.database, b.org, b.database); }
  }

  /** Two such Creates of one triple, on the empty store. */
  lemma RacingCreatesMayBreak()
    ensures var second := SAMPLE.(id := 6);
            && CreateGuard(AnyName, EMPTY, SAMPLE, true, None) == None
            && CreateGuard(AnyName, EMPTY, second, true, None) == None
            && !Inv(CreateWrite(CreateWrite(EMPTY, SAMPLE), second))
  {
    EmptyInv();
    RacingCreatesKeepInvariantIff(AnyName, EMPTY, SAMPLE, SAMPLE.(id := 6), None, None);
  }

  // ------------------------------------------------------------- whole runs

  /** One call, with what the id generator and the bucket service answered. */
  datatype Call =
    | Create(m: Mapping, bucketFound: bool, virt: Option<Bucket>)
    | Update(m: Mapping, virt: Option<Bucket>)
    | Delete(org: Id, id: Id, virt: Option<Bucket>)

  ghost function Apply(printable: Key -> bool, s: Store, c: Call): Store {
    match c
    case Create(m, found, virt) => CreateStep(printable, s, m, found, virt).0
    case Update(m, virt) => UpdateStep(printable, s, m, virt).0
    case Delete(org, id, virt) => DeleteStep(s, org, id, virt).0
  }

  /** What a caller has to respect: fresh ids for Create, stored mappings of the
      named organization for Update, no foreign id for Delete. */
  predicate Proper(s: Store, c: Call) {
    match c
    case Create(m, _, _) => Valid(m.id) ==> Enc(m.id) !in s.mappings
    case Update(m, _) => Valid(m.id) ==> Enc(m.id) in s.mappings && s.mappings[Enc(m.id)].org == m.org
    case Delete(org, id, _) => Valid(id) && Enc(id) in s.mappings ==> s.mappings[Enc(id)].org == org
  }

  lemma ProperCallKeepsInvariant(printable: Key -> bool, s: Store, c: Call)
    requires Inv(s) && Proper(s, c)
    ensures Inv(Apply(printable, s, c))
  {
    match c
    case Create(m, found, virt) =>
      if CreateGuard(printable, s, m, found, virt).None? { CreateKeepsInvariantIff(s, m); }
    case Update(m, virt) =>
      if UpdateGuard(printable, s, m, virt).None? {
        UpdateKeepsInvariantIff(s, m, Lookup(s, m.org, m.id, virt).value);
      }
    case Delete(org, id, virt) =>
      var found := Lookup(s, org, id, virt);
      if found.Ok? && Valid(org) { DeleteKeepsInvariantIff(s, org, id, found.value); }
  }

  lemma CallKeeps(printable: Key -> bool, s: Store, c: Call)
    requires Inv(s)
    ensures Proper(s, c) ==> Inv(Apply(printable, s, c))
  {
    if Proper(s, c) { ProperCallKeepsInvariant(printable, s, c); }
  }

  /** A serialised run: each call is proper in the store it finds. */
  ghost predicate Run(printable: Key -> bool, states: seq<Store>, calls: seq<Call>) {
    && |states| == |calls| + 1
    && states[0] == EMPTY
    && forall i :: 0 <= i < |calls| ==>
         Proper(states[i], calls[i]) && states[i + 1] == Apply(printable, states[i], calls[i])
  }

  /** Every store a serialised run goes through satisfies the invariant. */
  lemma {:induction false} EveryRunKeepsInvariant(printable: Key -> bool, states: seq<Store>, calls: seq<Call>, n: nat)
    requires Run(printable, states, calls) && n < |states|
    ensures Inv(states[n])
  {
    if n == 0 {
      EmptyInv();
    } else {
      EveryRunKeepsInvariant(printable, states, calls, n - 1);
      ProperCallKeepsInvariant(printable, states[n - 1], calls[n - 1]);
    }
  }
}
