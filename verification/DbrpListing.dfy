/** What FindMany lists: the stored mappings a full scan would accept, then the
    virtual mappings of buckets merged in after them. */
module DbrpListing {
  import opened Wrappers
  import opened Bytes
  import opened Ids
  import opened KvIndex
  import opened Dbrp

  datatype Filter = Filter(id: Option<Id>, org: Option<Id>, bucket: Option<Id>, database: Option<Key>,
                           rp: Option<Key>, isDefault: Option<bool>, virtual: Option<bool>)

  predicate Accepts(f: Filter, m: Mapping) {
    && (f.id.None? || f.id.value == m.id)
    && (f.org.None? || f.org.value == m.org)
    && (f.bucket.None? || f.bucket.value == m.bucket)
    && (f.database.None? || f.database.value == m.database)
    && (f.rp.None? || f.rp.value == m.rp)
    && (f.isDefault.None? || f.isDefault.value == m.isDefault)
    && (f.virtual.None? || f.virtual.value == m.virtual)
  }

  /** The filter accepts the stored mapping under a key, default flag overlaid. */
  function Passes(s: Store, f: Filter): Key -> bool {
    k => k in s.mappings && Accepts(f, Overlay(s, s.mappings[k]))
  }

  /** The keys among `ks` whose overlaid mappings the filter accepts. */
  function Kept(s: Store, f: Filter, ks: seq<Key>): (r: seq<Key>)
    ensures forall k :: k in r <==> k in ks && Passes(s, f)(k)
  {
    Select(Passes(s, f), ks)
  }

  function Shown(s: Store, ks: seq<Key>): (r: seq<Mapping>)
    requires forall k :: k in ks ==> k in s.mappings
    ensures |r| == |ks|
    ensures forall i :: 0 <= i < |ks| ==> r[i] == Overlay(s, s.mappings[ks[i]])
  {
    seq(|ks|, i requires 0 <= i < |ks| => Overlay(s, s.mappings[ks[i]]))
  }

  /** Reference: scan every stored mapping in key order. */
  function Physical(s: Store, f: Filter): seq<Mapping> {
    Shown(s, Kept(s, f, SortedKeys(s.mappings.Keys)))
  }

  lemma ShownStep(s: Store, f: Filter, ks: seq<Key>, i: nat)
    requires i < |ks| && ks[i] in s.mappings
    ensures Shown(s, Kept(s, f, ks[..i + 1])) ==
            var m := Overlay(s, s.mappings[ks[i]]);
            if Accepts(f, m) then Shown(s, Kept(s, f, ks[..i])) + [m] else Shown(s, Kept(s, f, ks[..i]))
  {
    SelectStep(Passes(s, f), ks, i);
  }

  /** Any ordered set of candidates that misses no accepted mapping lists what the
      full scan lists, in the same order. */
  lemma AnyCoveringPathAgrees(s: Store, f: Filter, ks: seq<Key>)
    requires Ascending(ks)
    requires forall k :: Passes(s, f)(k) ==> k in ks
    ensures Kept(s, f, ks) == Kept(s, f, SortedKeys(s.mappings.Keys))
  {
    SelectAgrees(Passes(s, f), ks, SortedKeys(s.mappings.Keys));
  }

  /** The default bucket names the only candidate for a default of one database. */
  lemma DefaultPathCovers(s: Store, f: Filter)
    requires Inv(s) && f.org.Some? && f.database.Some? && f.isDefault == Some(true)
    ensures var c := ComposeForeignKey(f.org.value, f.database.value);
            forall k :: Passes(s, f)(k) ==> c in s.defaults && k == s.defaults[c]
  {
  }

  lemma OrgDatabasePathCovers(s: Store, f: Filter, pks: seq<Key>)
    requires Inv(s) && f.org.Some? && f.database.Some?
    requires forall p :: p in pks <==>
               Lists(s.byOrgDb, ComposeForeignKey(f.org.value, f.database.value), p) && p in s.mappings
    ensures forall k :: Passes(s, f)(k) ==> k in pks
  {
    forall k | Passes(s, f)(k)
      ensures k in pks
    {
      assert ForeignKey(s.mappings[k]) == ComposeForeignKey(f.org.value, f.database.value);
    }
  }

  lemma OrgPathCovers(s: Store, f: Filter, pks: seq<Key>)
    requires Inv(s) && f.org.Some?
    requires forall p :: p in pks <==>
               Lists(s.byOrg, if Valid(f.org.value) then Enc(f.org.value) else [], p) && p in s.mappings
    ensures forall k :: Passes(s, f)(k) ==> k in pks
  {
    forall k | Passes(s, f)(k)
      ensures k in pks
    {
      assert Lists(s.byOrg, Enc(f.org.value), k);
    }
  }

  // ----------------------------------------------------------- virtual mappings

  /** The inner loop: None drops the virtual mapping, Some may have lost its default. */
  function Reconcile(ms: seq<Mapping>, v: Mapping): Option<Mapping> {
    if ms == [] then Some(v)
    else if ms[0].database != v.database then Reconcile(ms[1..], v)
    else if v.virtual && ms[0].rp == v.rp then None
    else if ms[0].isDefault && v.isDefault then Some(v.(isDefault := false))
    else Reconcile(ms[1..], v)
  }

  function AddBucket(f: Filter, ms: seq<Mapping>, b: Option<Bucket>): seq<Mapping> {
    if b.None? then ms
    else
      var v := Reconcile(ms, BucketToMapping(b.value));
      if v.Some? && Accepts(f, v.value) then ms + [v.value] else ms
  }

  function Merge(f: Filter, ms: seq<Mapping>, buckets: seq<Option<Bucket>>): seq<Mapping>
    decreases |buckets|
  {
    if buckets == [] then ms
    else AddBucket(f, Merge(f, ms, buckets[..|buckets| - 1]), buckets[|buckets| - 1])
  }

  /** At most one default for each organization and database. */
  ghost predicate DefaultsDistinct(ms: seq<Mapping>) {
    forall i, j :: 0 <= i < j < |ms| && ms[i].isDefault && ms[j].isDefault ==>
                     ms[i].org != ms[j].org || ms[i].database != ms[j].database
  }

  /** Only the default flag of a kept virtual mapping can change, and it survives
      only if no listed mapping of that database is a default. */
  lemma {:induction false} ReconcileKeeps(ms: seq<Mapping>, v: Mapping)
    requires Reconcile(ms, v).Some?
    ensures var w := Reconcile(ms, v).value;
            && w == v.(isDefault := w.isDefault)
            && (w.isDefault <==> v.isDefault && forall m :: m in ms && m.database == v.database ==> !m.isDefault)
  {
    if ms == [] {
    } else {
      assert ms == [ms[0]] + ms[1..];
      if ms[0].database != v.database || !(ms[0].isDefault && v.isDefault) {
        ReconcileKeeps(ms[1..], v);
      } else {
        assert ms[0] in ms;
      }
    }
  }

  lemma {:induction false} MergeKeepsDefaultsDistinct(f: Filter, ms: seq<Mapping>, buckets: seq<Option<Bucket>>)
    requires DefaultsDistinct(ms)
    ensures DefaultsDistinct(Merge(f, ms, buckets))
    decreases |buckets|
  {
    if buckets == [] {
    } else {
      var rest := Merge(f, ms, buckets[..|buckets| - 1]);
      var b := buckets[|buckets| - 1];
      MergeKeepsDefaultsDistinct(f, ms, buckets[..|buckets| - 1]);
      if b.Some? && Reconcile(rest, BucketToMapping(b.value)).Some? {
        ReconcileKeeps(rest, BucketToMapping(b.value));
        assert forall i :: 0 <= i < |rest| ==> rest[i] in rest;
      }
    }
  }

  lemma PhysicalDefaultsDistinct(s: Store, f: Filter)
    requires Inv(s)
    ensures DefaultsDistinct(Physical(s, f))
  {
    var ks := Kept(s, f, SortedKeys(s.mappings.Keys));
    SelectAscending(Passes(s, f), SortedKeys(s.mappings.Keys));
    AscendingDistinct(ks);
    forall i, j | 0 <= i < j < |ks| && Overlay(s, s.mappings[ks[i]]).isDefault
                  && Overlay(s, s.mappings[ks[j]]).isDefault
      ensures s.mappings[ks[i]].org != s.mappings[ks[j]].org || s.mappings[ks[i]].database != s.mappings[ks[j]].database
    {
      assert ks[i] in ks && ks[j] in ks;
    }
  }

  /** Whatever the filter and the buckets, the merged list shows at most one default
      for each organization and database. */
  lemma MergedListHasOneDefault(s: Store, f: Filter, buckets: seq<Option<Bucket>>)
    requires Inv(s)
    ensures DefaultsDistinct(Merge(f, Physical(s, f), buckets))
  {
    PhysicalDefaultsDistinct(s, f);
    MergeKeepsDefaultsDistinct(f, Physical(s, f), buckets);
  }

  lemma {:induction false} MergeAccepted(f: Filter, ms: seq<Mapping>, buckets: seq<Option<Bucket>>)
    requires forall m :: m in ms ==> Accepts(f, m)
    ensures forall m :: m in Merge(f, ms, buckets) ==> Accepts(f, m)
    ensures ms <= Merge(f, ms, buckets)
    decreases |buckets|
  {
    if buckets == [] {
    } else {
      MergeAccepted(f, ms, buckets[..|buckets| - 1]);
    }
  }

  /** With one organization named, at most one default per database remains. */
  lemma OneOrganizationOneDefault(s: Store, f: Filter, buckets: seq<Option<Bucket>>)
    requires Inv(s) && f.org.Some?
    ensures var ms := Merge(f, Physical(s, f), buckets);
            forall i, j :: 0 <= i < j < |ms| && ms[i].database == ms[j].database ==>
                             !(ms[i].isDefault && ms[j].isDefault)
  {
    MergedListHasOneDefault(s, f, buckets);
    PhysicalAccepted(s, f);
    MergeAccepted(f, Physical(s, f), buckets);
    var ms := Merge(f, Physical(s, f), buckets);
    assert forall i :: 0 <= i < |ms| ==> ms[i] in ms;
  }

  /** Stored mappings are listed in the order of their ids. */
  lemma PhysicalInIdOrder(s: Store, f: Filter)
    requires KeyedById(s)
    ensures var ms := Physical(s, f);
            forall i, j :: 0 <= i < j < |ms| ==> ms[i].id < ms[j].id
  {
    var ks := Kept(s, f, SortedKeys(s.mappings.Keys));
    SelectAscending(Passes(s, f), SortedKeys(s.mappings.Keys));
    forall i, j | 0 <= i < j < |ks|
      ensures s.mappings[ks[i]].id < s.mappings[ks[j]].id
    {
      assert ks[i] in ks && ks[j] in ks;
      EncOrder(s.mappings[ks[i]].id, s.mappings[ks[j]].id);
    }
  }

  /** A stored mapping as readers see it. */
  ghost predicate ShownMapping(s: Store, m: Mapping) {
    exists k :: k in s.mappings && m == Overlay(s, s.mappings[k])
  }

  /** The filter that names nothing. */
  const ALL := Filter(None, None, None, None, None, None, None)

  /** A stored mapping is listed exactly when it agrees with every field the filter names. */
  lemma ListedIff(s: Store, f: Filter, m: Mapping)
    ensures m in Physical(s, f) <==>
            && ShownMapping(s, m)
            && (f.id.Some? ==> m.id == f.id.value) && (f.org.Some? ==> m.org == f.org.value)
            && (f.bucket.Some? ==> m.bucket == f.bucket.value)
            && (f.database.Some? ==> m.database == f.database.value)
            && (f.rp.Some? ==> m.rp == f.rp.value)
            && (f.isDefault.Some? ==> m.isDefault == f.isDefault.value)
            && (f.virtual.Some? ==> m.virtual == f.virtual.value)
  {
    var ks := Kept(s, f, SortedKeys(s.mappings.Keys));
    if m in Physical(s, f) {
      var i :| 0 <= i < |ks| && m == Overlay(s, s.mappings[ks[i]]);
      assert ks[i] in ks;
    }
    if ShownMapping(s, m) && Accepts(f, m) {
      var k :| k in s.mappings && m == Overlay(s, s.mappings[k]);
      assert k in ks;
      var i :| 0 <= i < |ks| && ks[i] == k;
      assert Physical(s, f)[i] == m;
    }
  }

  /** Naming several fields lists what every one of them lists alone. */
  lemma FieldsIntersect(s: Store, f: Filter, m: Mapping)
    ensures m in Physical(s, f) <==>
            && m in Physical(s, ALL.(id := f.id)) && m in Physical(s, ALL.(org := f.org))
            && m in Physical(s, ALL.(bucket := f.bucket)) && m in Physical(s, ALL.(database := f.database))
            && m in Physical(s, ALL.(rp := f.rp)) && m in Physical(s, ALL.(isDefault := f.isDefault))
            && m in Physical(s, ALL.(virtual := f.virtual))
  {
    ListedIff(s, f, m);
    ListedIff(s, ALL.(id := f.id), m);
    ListedIff(s, ALL.(org := f.org), m);
    ListedIff(s, ALL.(bucket := f.bucket), m);
    ListedIff(s, ALL.(database := f.database), m);
    ListedIff(s, ALL.(rp := f.rp), m);
    ListedIff(s, ALL.(isDefault := f.isDefault), m);
    ListedIff(s, ALL.(virtual := f.virtual), m);
  }

  lemma PhysicalAccepted(s: Store, f: Filter)
    ensures forall m :: m in Physical(s, f) ==> Accepts(f, m)
  {
    var ks := Kept(s, f, SortedKeys(s.mappings.Keys));
    forall m | m in Physical(s, f)
      ensures Accepts(f, m)
    {
      var i :| 0 <= i < |ks| && m == Overlay(s, s.mappings[ks[i]]);
      assert ks[i] in ks;
    }
  }

  /** A virtual mapping gives way to one with its database and policy exactly when no
      default of that database stands earlier in the list (the search stops there). */
  lemma {:induction false} ShadowedIff(ms: seq<Mapping>, v: Mapping)
    requires v.virtual
    ensures Reconcile(ms, v).None? <==>
            exists i :: 0 <= i < |ms| && Shadows(ms, v, i)
  {
    if ms == [] {
    } else {
      ShadowedIff(ms[1..], v);
      if exists i :: 0 <= i < |ms| && Shadows(ms, v, i) {
        var i :| 0 <= i < |ms| && Shadows(ms, v, i);
        if i > 0 { assert Shadows(ms[1..], v, i - 1); }
      }
      if exists i :: 0 <= i < |ms[1..]| && Shadows(ms[1..], v, i) {
        var i :| 0 <= i < |ms[1..]| && Shadows(ms[1..], v, i);
        if ms[0].database != v.database || !(ms[0].isDefault && v.isDefault) {
          assert Shadows(ms, v, i + 1);
        }
      }
      if ms[0].database == v.database && ms[0].rp == v.rp { assert Shadows(ms, v, 0); }
    }
  }

  ghost predicate Shadows(ms: seq<Mapping>, v: Mapping, i: int)
    requires 0 <= i < |ms|
  {
    && ms[i].database == v.database && ms[i].rp == v.rp
    && (v.isDefault ==> forall j :: 0 <= j < i && ms[j].database == v.database ==> !ms[j].isDefault)
  }
}
