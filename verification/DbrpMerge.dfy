/** The list FindMany merges from stored mappings and buckets: when it repeats a database
    and policy, and which organization a mapping gives way to. */
module DbrpMerge {
  import opened Wrappers
  import opened Bytes
  import opened Ids
  import opened KvIndex
  import opened Dbrp
  import opened DbrpListing

  predicate SameName(a: Mapping, b: Mapping) {
    a.database == b.database && a.rp == b.rp
  }

  ghost predicate HasAutogen(ms: seq<Mapping>, db: Key) {
    exists m :: m in ms && m.database == db && m.rp == AUTOGEN
  }

  /** A default of the database stands before every `autogen` mapping of it. */
  ghost predicate DefaultFirst(ms: seq<Mapping>, db: Key) {
    exists d :: 0 <= d < |ms| && DefaultFirstAt(ms, db, d)
  }

  ghost predicate DefaultFirstAt(ms: seq<Mapping>, db: Key, d: int)
    requires 0 <= d < |ms|
  {
    && ms[d].database == db && ms[d].isDefault
    && forall i :: 0 <= i <= d && ms[i].database == db ==> ms[i].rp != AUTOGEN
  }

  ghost predicate HasName(ms: seq<Mapping>, v: Mapping) {
    exists m :: m in ms && SameName(m, v)
  }

  /** A listed mapping that came from a bucket repeats an earlier one. */
  ghost predicate Repeats(ms: seq<Mapping>, stored: nat) {
    exists i, j :: 0 <= i < j < |ms| && stored <= j && SameName(ms[i], ms[j])
  }

  // ------------------------------------------------------------- one bucket

  /** The mapping of a bucket named without a slash: kept exactly when the list has no
      `autogen` of its database or a default before it. */
  lemma PlainKeptIff(ms: seq<Mapping>, v: Mapping)
    requires v.virtual && v.isDefault && v.rp == AUTOGEN
    ensures Reconcile(ms, v).Some? <==> DefaultFirst(ms, v.database) || !HasAutogen(ms, v.database)
  {
    ShadowedIff(ms, v);
    if HasAutogen(ms, v.database) {
      var a := FirstAutogen(ms, v.database);
      if exists d :: 0 <= d < a && ms[d].database == v.database && ms[d].isDefault {
        var d :| 0 <= d < a && ms[d].database == v.database && ms[d].isDefault;
        assert DefaultFirstAt(ms, v.database, d);
        DefaultFirstUnshadowed(ms, v, d);
      } else {
        assert Shadows(ms, v, a);
        NoDefaultFirst(ms, v.database, a);
      }
    } else {
      forall i | 0 <= i < |ms|
        ensures !Shadows(ms, v, i)
      {
        assert ms[i] in ms;
      }
    }
  }

  lemma FirstAutogen(ms: seq<Mapping>, db: Key) returns (a: nat)
    requires HasAutogen(ms, db)
    ensures a < |ms| && ms[a].database == db && ms[a].rp == AUTOGEN
    ensures forall i :: 0 <= i < a && ms[i].database == db ==> ms[i].rp != AUTOGEN
  {
    a := 0;
    while !(ms[a].database == db && ms[a].rp == AUTOGEN)
      invariant a < |ms|
      invariant forall i :: 0 <= i < a && ms[i].database == db ==> ms[i].rp != AUTOGEN
      decreases |ms| - a
    {
      var m :| m in ms && m.database == db && m.rp == AUTOGEN;
      var i :| 0 <= i < |ms| && ms[i] == m;
      a := a + 1;
    }
  }

  lemma DefaultFirstUnshadowed(ms: seq<Mapping>, v: Mapping, d: nat)
    requires v.isDefault && v.rp == AUTOGEN && d < |ms| && DefaultFirstAt(ms, v.database, d)
    ensures forall i :: 0 <= i < |ms| ==> !Shadows(ms, v, i)
  {
  }

  lemma NoDefaultFirst(ms: seq<Mapping>, db: Key, a: nat)
    requires a < |ms| && ms[a].database == db && ms[a].rp == AUTOGEN
    requires forall d :: 0 <= d < a && ms[d].database == db ==> !ms[d].isDefault
    ensures !DefaultFirst(ms, db)
  {
  }

  /** The mapping of a bucket named with a slash is kept exactly when it repeats nothing. */
  lemma SlashedKeptIff(ms: seq<Mapping>, v: Mapping)
    requires v.virtual && !v.isDefault
    ensures Reconcile(ms, v).Some? <==> forall m :: m in ms ==> !SameName(m, v)
    ensures Reconcile(ms, v).Some? ==> Reconcile(ms, v).value == v
  {
    ShadowedIff(ms, v);
    if Reconcile(ms, v).Some? {
      ReconcileKeeps(ms, v);
      forall m | m in ms
        ensures !SameName(m, v)
      {
        var i :| 0 <= i < |ms| && ms[i] == m;
        assert !Shadows(ms, v, i);
      }
    } else {
      var i :| 0 <= i < |ms| && Shadows(ms, v, i);
      assert ms[i] in ms && SameName(ms[i], v);
    }
  }

  // ------------------------------------------------------------- the whole list

  lemma DefaultFirstStays(f: Filter, ms: seq<Mapping>, b: Option<Bucket>, db: Key)
    ensures DefaultFirst(AddBucket(f, ms, b), db) <==> DefaultFirst(ms, db)
  {
    var t := AddBucket(f, ms, b);
    if t != ms {
      ReconcileKeeps(ms, BucketToMapping(b.value));
      if DefaultFirst(ms, db) {
        var d :| 0 <= d < |ms| && DefaultFirstAt(ms, db, d);
        assert DefaultFirstAt(t, db, d);
      }
      if DefaultFirst(t, db) {
        var d :| 0 <= d < |t| && DefaultFirstAt(t, db, d);
        assert d < |ms|;
        assert forall i :: 0 <= i <= d ==> ms[i] == t[i];
        assert DefaultFirstAt(ms, db, d);
      }
    }
  }

  /** A default listed before its name makes a plain mapping pass, without its default. */
  ghost predicate Behind(ms: seq<Mapping>, v: Mapping) {
    v.isDefault && DefaultFirst(ms, v.database)
  }

  /** What the mapping of a bucket is listed as, if it is. */
  ghost function Shape(ms: seq<Mapping>, v: Mapping): Mapping {
    if Behind(ms, v) then v.(isDefault := false) else v
  }

  /** The inner loop in one line: a mapping passes behind a default or under a new name. */
  lemma KeptIff(ms: seq<Mapping>, b: Bucket)
    ensures var v := BucketToMapping(b);
            && (Reconcile(ms, v).Some? <==> Behind(ms, v) || !HasName(ms, v))
            && (Reconcile(ms, v).Some? ==> Reconcile(ms, v).value == Shape(ms, v))
  {
    var v := BucketToMapping(b);
    if v.isDefault {
      assert v.rp == AUTOGEN;
      PlainKeptIff(ms, v);
      AutogenIsName(ms, v);
      if Reconcile(ms, v).Some? { PlainShape(ms, v); }
    } else {
      SlashedKeptIff(ms, v);
    }
  }

  lemma AutogenIsName(ms: seq<Mapping>, v: Mapping)
    requires v.rp == AUTOGEN
    ensures HasAutogen(ms, v.database) <==> HasName(ms, v)
  {
    if HasAutogen(ms, v.database) {
      var m :| m in ms && m.database == v.database && m.rp == AUTOGEN;
      assert SameName(m, v);
    }
  }

  ghost predicate HasDefault(ms: seq<Mapping>, db: Key) {
    exists m :: m in ms && m.database == db && m.isDefault
  }

  /** Without an `autogen` mapping any default comes first. */
  lemma DefaultWithoutAutogen(ms: seq<Mapping>, db: Key)
    ensures DefaultFirst(ms, db) ==> HasDefault(ms, db)
    ensures !HasAutogen(ms, db) && HasDefault(ms, db) ==> DefaultFirst(ms, db)
  {
    if DefaultFirst(ms, db) {
      var d :| 0 <= d < |ms| && DefaultFirstAt(ms, db, d);
      assert ms[d] in ms;
    }
    if !HasAutogen(ms, db) && HasDefault(ms, db) {
      var m :| m in ms && m.database == db && m.isDefault;
      var d :| 0 <= d < |ms| && ms[d] == m;
      assert forall i :: 0 <= i <= d ==> ms[i] in ms;
      assert DefaultFirstAt(ms, db, d);
    }
  }

  lemma PlainShape(ms: seq<Mapping>, v: Mapping)
    requires v.isDefault && Reconcile(ms, v).Some? && (DefaultFirst(ms, v.database) || !HasAutogen(ms, v.database))
    ensures Reconcile(ms, v).value == Shape(ms, v)
  {
    ReconcileKeeps(ms, v);
    DefaultWithoutAutogen(ms, v.database);
  }

  // ------------------------------------------------------------- in closed form

  // Which buckets are listed, and as what, depends on the stored mappings and on the
  // buckets before them alone.

  /** The filter accepts what the bucket would be listed as. */
  ghost predicate Wanted(f: Filter, ms: seq<Mapping>, b: Option<Bucket>) {
    b.Some? && Accepts(f, Shape(ms, BucketToMapping(b.value)))
  }

  ghost predicate WantedAs(f: Filter, ms: seq<Mapping>, b: Option<Bucket>, v: Mapping) {
    Wanted(f, ms, b) && SameName(BucketToMapping(b.value), v)
  }

  /** A stored mapping or one of the first n buckets has the name. */
  ghost predicate NameTaken(f: Filter, ms: seq<Mapping>, buckets: seq<Option<Bucket>>, n: nat, v: Mapping)
    requires n <= |buckets|
  {
    HasName(ms, v) || exists j :: 0 <= j < n && WantedAs(f, ms, buckets[j], v)
  }

  ghost predicate ListedAt(f: Filter, ms: seq<Mapping>, buckets: seq<Option<Bucket>>, n: nat)
    requires n < |buckets|
  {
    && Wanted(f, ms, buckets[n])
    && (Behind(ms, BucketToMapping(buckets[n].value))
        || !NameTaken(f, ms, buckets, n, BucketToMapping(buckets[n].value)))
  }

  ghost function ListedAs(ms: seq<Mapping>, b: Option<Bucket>): Mapping
    requires b.Some?
  {
    Shape(ms, BucketToMapping(b.value))
  }

  /** The mappings of the listed ones among the first n buckets. */
  ghost function Chosen(f: Filter, ms: seq<Mapping>, buckets: seq<Option<Bucket>>, n: nat): seq<Mapping>
    requires n <= |buckets|
  {
    if n == 0 then []
    else
      var before := Chosen(f, ms, buckets, n - 1);
      if ListedAt(f, ms, buckets, n - 1) then before + [ListedAs(ms, buckets[n - 1])] else before
  }

  lemma {:induction false} MergeDefaultFirst(f: Filter, ms: seq<Mapping>, buckets: seq<Option<Bucket>>, db: Key)
    ensures DefaultFirst(Merge(f, ms, buckets), db) <==> DefaultFirst(ms, db)
    decreases |buckets|
  {
    if buckets == [] {
    } else {
      var init := buckets[..|buckets| - 1];
      MergeDefaultFirst(f, ms, init, db);
      DefaultFirstStays(f, Merge(f, ms, init), buckets[|buckets| - 1], db);
    }
  }

  /** One more bucket, in terms of the running list. */
  lemma AddBucketIs(f: Filter, ms: seq<Mapping>, b: Option<Bucket>)
    ensures AddBucket(f, ms, b) ==
            if Wanted(f, ms, b) && (Behind(ms, BucketToMapping(b.value)) || !HasName(ms, BucketToMapping(b.value)))
            then ms + [ListedAs(ms, b)] else ms
  {
    if b.Some? { KeptIff(ms, b.value); }
  }

  lemma HasNameAppend(ms: seq<Mapping>, m: Mapping, v: Mapping)
    ensures HasName(ms + [m], v) <==> HasName(ms, v) || SameName(m, v)
  {
    if HasName(ms, v) {
      var x :| x in ms && SameName(x, v);
      assert x in ms + [m];
    }
    if SameName(m, v) { assert m in ms + [m]; }
  }

  lemma HasNameAfter(f: Filter, ms: seq<Mapping>, b: Option<Bucket>, v: Mapping)
    ensures HasName(AddBucket(f, ms, b), v) <==> HasName(ms, v) || WantedAs(f, ms, b, v)
  {
    AddBucketIs(f, ms, b);
    if b.Some? {
      var u := BucketToMapping(b.value);
      HasNameAppend(ms, ListedAs(ms, b), v);
      if HasName(ms, u) && SameName(u, v) {
        var x :| x in ms && SameName(x, u);
        assert SameName(x, v);
      }
    }
  }

  lemma {:induction false} MergeHasName(f: Filter, ms: seq<Mapping>, buckets: seq<Option<Bucket>>, n: nat, v: Mapping)
    requires n <= |buckets|
    ensures HasName(Merge(f, ms, buckets[..n]), v) <==> NameTaken(f, ms, buckets, n, v)
  {
    if n == 0 {
    } else {
      MergeHasName(f, ms, buckets, n - 1, v);
      MergeWanted(f, ms, buckets, n - 1);
      assert buckets[..n][..n - 1] == buckets[..n - 1];
      HasNameAfter(f, Merge(f, ms, buckets[..n - 1]), buckets[n - 1], v);
    }
  }

  /** Whether and as what a bucket is wanted does not change while the list grows. */
  lemma MergeWanted(f: Filter, ms: seq<Mapping>, buckets: seq<Option<Bucket>>, n: nat)
    requires n < |buckets|
    ensures var list := Merge(f, ms, buckets[..n]);
            && (buckets[n].Some? ==> ListedAs(list, buckets[n]) == ListedAs(ms, buckets[n]))
            && (buckets[n].Some? ==> (Behind(list, BucketToMapping(buckets[n].value)) <==>
                                      Behind(ms, BucketToMapping(buckets[n].value))))
            && (Wanted(f, list, buckets[n]) <==> Wanted(f, ms, buckets[n]))
  {
    if buckets[n].Some? { MergeDefaultFirst(f, ms, buckets[..n], BucketToMapping(buckets[n].value).database); }
  }

  lemma MergeStep(f: Filter, ms: seq<Mapping>, buckets: seq<Option<Bucket>>, n: nat)
    requires n < |buckets|
    ensures Merge(f, ms, buckets[..n + 1]) ==
            if ListedAt(f, ms, buckets, n) then Merge(f, ms, buckets[..n]) + [ListedAs(ms, buckets[n])]
            else Merge(f, ms, buckets[..n])
  {
    var list := Merge(f, ms, buckets[..n]);
    assert buckets[..n + 1][..n] == buckets[..n];
    MergeWanted(f, ms, buckets, n);
    AddBucketIs(f, list, buckets[n]);
    if buckets[n].Some? { MergeHasName(f, ms, buckets, n, BucketToMapping(buckets[n].value)); }
  }

  lemma {:induction false} MergePrefix(f: Filter, ms: seq<Mapping>, buckets: seq<Option<Bucket>>, n: nat)
    requires n <= |buckets|
    ensures Merge(f, ms, buckets[..n]) == ms + Chosen(f, ms, buckets, n)
  {
    if n == 0 {
    } else {
      MergePrefix(f, ms, buckets, n - 1);
      MergeStep(f, ms, buckets, n - 1);
      if ListedAt(f, ms, buckets, n - 1) {
        AppendLast(ms, Chosen(f, ms, buckets, n - 1), ListedAs(ms, buckets[n - 1]));
      }
    }
  }

  lemma AppendLast(a: seq<Mapping>, b: seq<Mapping>, m: Mapping)
    ensures a + b + [m] == a + (b + [m])
  {
  }

  /** The merged list is the stored mappings followed by those of the listed buckets, in
      order, for every filter. */
  lemma MergeIsChosen(f: Filter, ms: seq<Mapping>, buckets: seq<Option<Bucket>>)
    ensures Merge(f, ms, buckets) == ms + Chosen(f, ms, buckets, |buckets|)
  {
    MergePrefix(f, ms, buckets, |buckets|);
    assert buckets[..|buckets|] == buckets;
  }

  ghost predicate ChosenHas(f: Filter, ms: seq<Mapping>, buckets: seq<Option<Bucket>>, k: int, m: Mapping) {
    0 <= k < |buckets| && ListedAt(f, ms, buckets, k) && ListedAs(ms, buckets[k]) == m
  }

  lemma {:induction false} ChosenMembers(f: Filter, ms: seq<Mapping>, buckets: seq<Option<Bucket>>, n: nat, m: Mapping)
    requires n <= |buckets|
    ensures m in Chosen(f, ms, buckets, n) <==> exists k :: k < n && ChosenHas(f, ms, buckets, k, m)
  {
    if n == 0 {
    } else {
      ChosenMembers(f, ms, buckets, n - 1, m);
      assert ListedAt(f, ms, buckets, n - 1) && ListedAs(ms, buckets[n - 1]) == m ==>
          ChosenHas(f, ms, buckets, n - 1, m);
    }
  }

  lemma MergedMembers(f: Filter, ms: seq<Mapping>, buckets: seq<Option<Bucket>>, m: Mapping)
    ensures m in Merge(f, ms, buckets) <==> m in ms || exists k :: ChosenHas(f, ms, buckets, k, m)
  {
    MergeIsChosen(f, ms, buckets);
    ChosenMembers(f, ms, buckets, |buckets|, m);
  }

  /** A mapping is listed for a bucket exactly when it is what the bucket is listed as, it
      agrees with every field the filter names, and it passes the stored ones. */
  lemma VirtualListedIff(f: Filter, ms: seq<Mapping>, buckets: seq<Option<Bucket>>, m: Mapping)
    ensures m in Chosen(f, ms, buckets, |buckets|) <==>
            && (f.id.Some? ==> m.id == f.id.value) && (f.org.Some? ==> m.org == f.org.value)
            && (f.bucket.Some? ==> m.bucket == f.bucket.value)
            && (f.database.Some? ==> m.database == f.database.value)
            && (f.rp.Some? ==> m.rp == f.rp.value)
            && (f.isDefault.Some? ==> m.isDefault == f.isDefault.value)
            && (f.virtual.Some? ==> m.virtual == f.virtual.value)
            && exists k :: ShapedAs(ms, buckets, k, m) && Unblocked(f, ms, buckets, k)
  {
    ChosenMembers(f, ms, buckets, |buckets|, m);
    if k :| k < |buckets| && ChosenHas(f, ms, buckets, k, m) {
      assert ShapedAs(ms, buckets, k, m) && Unblocked(f, ms, buckets, k);
    }
    if k :| ShapedAs(ms, buckets, k, m) && Unblocked(f, ms, buckets, k) && Accepts(f, m) {
      assert ChosenHas(f, ms, buckets, k, m);
    }
  }

  ghost predicate ShapedAs(ms: seq<Mapping>, buckets: seq<Option<Bucket>>, k: int, m: Mapping) {
    0 <= k < |buckets| && buckets[k].Some? && ListedAs(ms, buckets[k]) == m
  }

  /** Behind a default, or under a name nobody has. */
  ghost predicate Unblocked(f: Filter, ms: seq<Mapping>, buckets: seq<Option<Bucket>>, k: int) {
    && 0 <= k < |buckets| && buckets[k].Some?
    && var v := BucketToMapping(buckets[k].value);
    Behind(ms, v) || !NameTaken(f, ms, buckets, k, v)
  }

  // ------------------------------------------------------------- repeats

  /** A wanted bucket of a plain name behind a default, whose name is taken. */
  ghost predicate RepeatAt(f: Filter, ms: seq<Mapping>, buckets: seq<Option<Bucket>>, n: nat)
    requires n < |buckets|
  {
    && Wanted(f, ms, buckets[n]) && Behind(ms, BucketToMapping(buckets[n].value))
    && NameTaken(f, ms, buckets, n, BucketToMapping(buckets[n].value))
  }

  lemma RepeatsAppend(ms: seq<Mapping>, m: Mapping, stored: nat)
    requires stored <= |ms|
    ensures Repeats(ms + [m], stored) <==> Repeats(ms, stored) || HasName(ms, m)
  {
    var t := ms + [m];
    if Repeats(ms, stored) {
      var i, j :| 0 <= i < j < |ms| && stored <= j && SameName(ms[i], ms[j]);
      assert SameName(t[i], t[j]);
    }
    if HasName(ms, m) {
      var x :| x in ms && SameName(x, m);
      var i :| 0 <= i < |ms| && ms[i] == x;
      assert SameName(t[i], t[|ms|]);
    }
    if Repeats(t, stored) {
      var i, j :| 0 <= i < j < |t| && stored <= j && SameName(t[i], t[j]);
      assert ms[i] in ms;
      if j < |ms| { assert SameName(ms[i], ms[j]); }
    }
  }

  lemma RepeatsStep(f: Filter, ms: seq<Mapping>, buckets: seq<Option<Bucket>>, n: nat)
    requires n < |buckets|
    ensures Repeats(Merge(f, ms, buckets[..n + 1]), |ms|) <==>
            Repeats(Merge(f, ms, buckets[..n]), |ms|) || RepeatAt(f, ms, buckets, n)
  {
    MergeStep(f, ms, buckets, n);
    if ListedAt(f, ms, buckets, n) {
      var v := BucketToMapping(buckets[n].value);
      MergePrefix(f, ms, buckets, n);
      MergeHasName(f, ms, buckets, n, ListedAs(ms, buckets[n]));
      SameNameTaken(f, ms, buckets, n, v, ListedAs(ms, buckets[n]));
      RepeatsAppend(Merge(f, ms, buckets[..n]), ListedAs(ms, buckets[n]), |ms|);
    }
  }

  lemma SameNameTaken(f: Filter, ms: seq<Mapping>, buckets: seq<Option<Bucket>>, n: nat, v: Mapping, w: Mapping)
    requires n <= |buckets| && v.database == w.database && v.rp == w.rp
    ensures NameTaken(f, ms, buckets, n, v) <==> NameTaken(f, ms, buckets, n, w)
  {
    assert forall m :: SameName(m, v) <==> SameName(m, w);
    assert HasName(ms, v) <==> HasName(ms, w);
    assert forall j :: 0 <= j < n ==> (WantedAs(f, ms, buckets[j], v) <==> WantedAs(f, ms, buckets[j], w));
  }

  lemma {:induction false} RepeatsPrefix(f: Filter, ms: seq<Mapping>, buckets: seq<Option<Bucket>>, n: nat)
    requires n <= |buckets|
    ensures Repeats(Merge(f, ms, buckets[..n]), |ms|) <==> exists k :: 0 <= k < n && RepeatAt(f, ms, buckets, k)
  {
    if n == 0 {
    } else {
      RepeatsPrefix(f, ms, buckets, n - 1);
      RepeatsStep(f, ms, buckets, n - 1);
    }
  }

  /** The merged list shows a bucket's mapping beside an earlier one of the same database
      and policy exactly when the stored mappings and the buckets meet the condition. */
  lemma RepeatListedIff(f: Filter, ms: seq<Mapping>, buckets: seq<Option<Bucket>>)
    ensures Repeats(Merge(f, ms, buckets), |ms|) <==> exists n :: 0 <= n < |buckets| && RepeatAt(f, ms, buckets, n)
  {
    RepeatsPrefix(f, ms, buckets, |buckets|);
    assert buckets[..|buckets|] == buckets;
  }

  // ------------------------------------------------------------- organizations

  ghost predicate HasTriple(ms: seq<Mapping>, v: Mapping) {
    exists m :: m in ms && SameTriple(m, v)
  }

  ghost predicate BucketHasTriple(b: Option<Bucket>, v: Mapping) {
    b.Some? && SameTriple(BucketToMapping(b.value), v)
  }

  /** An organization, database and policy is listed exactly when it is stored or that of
      a bucket that is wanted and stands behind a default or has its name to itself. */
  lemma TripleListedIff(f: Filter, ms: seq<Mapping>, buckets: seq<Option<Bucket>>, v: Mapping)
    ensures HasTriple(Merge(f, ms, buckets), v) <==>
            || HasTriple(ms, v)
            || exists k :: 0 <= k < |buckets| && BucketHasTriple(buckets[k], v) && ListedAt(f, ms, buckets, k)
  {
    var list := Merge(f, ms, buckets);
    if HasTriple(list, v) {
      var m :| m in list && SameTriple(m, v);
      MergedMembers(f, ms, buckets, m);
      if m !in ms {
        var k :| ChosenHas(f, ms, buckets, k, m);
        assert BucketHasTriple(buckets[k], v);
      }
    }
    if HasTriple(ms, v) {
      var m :| m in ms && SameTriple(m, v);
      MergedMembers(f, ms, buckets, m);
    }
    if exists k :: 0 <= k < |buckets| && BucketHasTriple(buckets[k], v) && ListedAt(f, ms, buckets, k) {
      var k :| 0 <= k < |buckets| && BucketHasTriple(buckets[k], v) && ListedAt(f, ms, buckets, k);
      var m := ListedAs(ms, buckets[k]);
      assert ChosenHas(f, ms, buckets, k, m);
      MergedMembers(f, ms, buckets, m);
      assert SameTriple(m, v);
    }
  }

  /** A bucket is listed as a default exactly when the filter accepts it as one, it has a
      plain name, no stored mapping is a default of its database and its name is free. */
  lemma ListedAsDefaultIff(f: Filter, ms: seq<Mapping>, buckets: seq<Option<Bucket>>, n: nat)
    requires n < |buckets| && buckets[n].Some?
    ensures var v := BucketToMapping(buckets[n].value);
            ListedAt(f, ms, buckets, n) && ListedAs(ms, buckets[n]).isDefault <==>
            Accepts(f, v) && NoSlash(buckets[n].value.name) && !HasDefault(ms, v.database)
            && !NameTaken(f, ms, buckets, n, v)
  {
    var v := BucketToMapping(buckets[n].value);
    DefaultWithoutAutogen(ms, v.database);
    if v.isDefault {
      assert v.rp == AUTOGEN;
      AutogenIsName(ms, v);
    }
  }

  ghost predicate ShowsDefault(ms: seq<Mapping>, org: Id, db: Key) {
    exists m :: m in ms && m.org == org && m.database == db && m.isDefault
  }

  ghost predicate DefaultBucket(f: Filter, ms: seq<Mapping>, buckets: seq<Option<Bucket>>, n: int, org: Id, db: Key) {
    && 0 <= n < |buckets| && buckets[n].Some? && buckets[n].value.org == org && buckets[n].value.name == db
    && NoSlash(db) && Accepts(f, BucketToMapping(buckets[n].value))
    && !HasDefault(ms, db) && !NameTaken(f, ms, buckets, n, BucketToMapping(buckets[n].value))
  }

  /** An organization shows a default of a database exactly when it has a stored one, or
      nobody has one and the first wanted mapping of the database's own name is its bucket
      of that plain name. */
  lemma DefaultShownIff(f: Filter, ms: seq<Mapping>, buckets: seq<Option<Bucket>>, org: Id, db: Key)
    ensures ShowsDefault(Merge(f, ms, buckets), org, db) <==>
            ShowsDefault(ms, org, db) || exists n :: DefaultBucket(f, ms, buckets, n, org, db)
  {
    var list := Merge(f, ms, buckets);
    if ShowsDefault(list, org, db) {
      var m :| m in list && m.org == org && m.database == db && m.isDefault;
      MergedMembers(f, ms, buckets, m);
      if m !in ms {
        var k :| ChosenHas(f, ms, buckets, k, m);
        ListedAsDefaultIff(f, ms, buckets, k);
        assert DefaultBucket(f, ms, buckets, k, org, db);
      }
    }
    if ShowsDefault(ms, org, db) {
      var m :| m in ms && m.org == org && m.database == db && m.isDefault;
      MergedMembers(f, ms, buckets, m);
    }
    if exists n :: DefaultBucket(f, ms, buckets, n, org, db) {
      var n :| DefaultBucket(f, ms, buckets, n, org, db);
      ListedAsDefaultIff(f, ms, buckets, n);
      var m := ListedAs(ms, buckets[n]);
      assert ChosenHas(f, ms, buckets, n, m);
      MergedMembers(f, ms, buckets, m);
      assert m.org == org && m.database == db;
    }
  }

  /** Every bucket the filter wants is listed under its database and policy; with an
      organization in the filter, under its own organization too. */
  lemma BucketIsRepresented(s: Store, f: Filter, buckets: seq<Option<Bucket>>, n: nat)
    requires n < |buckets| && Wanted(f, Physical(s, f), buckets[n])
    ensures HasName(Merge(f, Physical(s, f), buckets), BucketToMapping(buckets[n].value))
    ensures f.org.Some? ==> HasTriple(Merge(f, Physical(s, f), buckets), BucketToMapping(buckets[n].value))
  {
    var ms := Physical(s, f);
    var v := BucketToMapping(buckets[n].value);
    assert WantedAs(f, ms, buckets[n], v);
    MergeHasName(f, ms, buckets, |buckets|, v);
    assert buckets[..|buckets|] == buckets;
    var m :| m in Merge(f, ms, buckets) && SameName(m, v);
    PhysicalAccepted(s, f);
    MergeAccepted(f, ms, buckets);
    assert f.org.Some? ==> SameTriple(m, v);
  }

  // ------------------------------------------------------------- lists that show it

  const DB: Key := [100]
  const FIRST := Mapping(1, DB, [114], false, false, 3, 8)
  const SECOND := Mapping(2, DB, AUTOGEN, false, false, 3, 8)

  lemma PlainBucket(id: Id, org: Id)
    ensures BucketToMapping(Bucket(id, org, DB)) == Mapping(id, DB, AUTOGEN, true, true, org, id)
  {
    assert NoSlash(DB);
  }

  lemma Accepted(m: Mapping)
    requires m == FIRST || m == SECOND
    ensures CreateGuard(AnyName, EMPTY, m, true, None) == None
  {
    assert !Taken(EMPTY, m);
  }

  /** One accepted Create on the empty store, and its listing. */
  lemma OneStored(m: Mapping)
    requires CreateGuard(AnyName, EMPTY, m, true, None) == None
    ensures var s := CreateStep(AnyName, EMPTY, m, true, None).0;
            && s.mappings == map[Enc(m.id) := m.(isDefault := true)]
            && s.defaults == map[ForeignKey(m) := Enc(m.id)]
            && Physical(s, ALL) == [m.(isDefault := true)]
  {
    ListOfOne(CreateStep(AnyName, EMPTY, m, true, None).0, m);
  }

  lemma ListOfOne(s: Store, m: Mapping)
    requires Valid(m.id) && s.mappings == map[Enc(m.id) := m.(isDefault := true)]
    requires s.defaults == map[ForeignKey(m) := Enc(m.id)]
    ensures Physical(s, ALL) == [m.(isDefault := true)]
  {
    AscendingUnique(SortedKeys(s.mappings.Keys), [Enc(m.id)]);
    AllKept(s, [Enc(m.id)]);
  }

  lemma AllKept(s: Store, ks: seq<Key>)
    requires forall k :: k in ks ==> k in s.mappings
    ensures Kept(s, ALL, ks) == ks
  {
    SelectAll(Passes(s, ALL), ks);
  }

  lemma SecondStored(s: Store)
    requires s.mappings == map[Enc(1) := FIRST.(isDefault := true)] && s.defaults == map[ForeignKey(FIRST) := Enc(1)]
    ensures var (t, e) := CreateStep(AnyName, s, SECOND, true, None);
            e == None && t.mappings == s.mappings[Enc(2) := SECOND] && t.defaults == s.defaults
  {
    EncInjectiveAt(1, 2);
    assert |AUTOGEN| == 7;
    assert !Taken(s, SECOND);
    assert CreateGuard(AnyName, s, SECOND, true, None) == None;
  }

  lemma EncInjectiveAt(i: Id, j: Id)
    requires Valid(i) && Valid(j) && i != j
    ensures Enc(i) != Enc(j)
  {
    if Enc(i) == Enc(j) { EncInjective(i, j); }
  }

  lemma ListOfTwo(s: Store)
    requires s.mappings == map[Enc(1) := FIRST.(isDefault := true), Enc(2) := SECOND]
    requires s.defaults == map[ForeignKey(FIRST) := Enc(1)]
    ensures Physical(s, ALL) == [FIRST.(isDefault := true), SECOND]
  {
    SortedPair(s.mappings.Keys);
    AllKept(s, [Enc(1), Enc(2)]);
    EncInjectiveAt(1, 2);
  }

  lemma SortedPair(keys: set<Key>)
    requires keys == {Enc(1), Enc(2)}
    ensures SortedKeys(keys) == [Enc(1), Enc(2)]
  {
    EncOrder(1, 2);
    AscendingUnique(SortedKeys(keys), [Enc(1), Enc(2)]);
  }

  /** The default stops the search before it reaches the `autogen` mapping. */
  lemma SearchStopsAtDefault()
    ensures var v := BucketToMapping(Bucket(9, 3, DB));
            Reconcile([FIRST.(isDefault := true), SECOND], v) == Some(v.(isDefault := false))
  {
    PlainBucket(9, 3);
    assert |AUTOGEN| == 7;
  }

  lemma TwoStored()
    ensures var s1 := CreateStep(AnyName, EMPTY, FIRST, true, None);
            var s2 := CreateStep(AnyName, s1.0, SECOND, true, None);
            s1.1 == None && s2.1 == None && Physical(s2.0, ALL) == [FIRST.(isDefault := true), SECOND]
  {
    Accepted(FIRST);
    OneStored(FIRST);
    var s1 := CreateStep(AnyName, EMPTY, FIRST, true, None).0;
    SecondStored(s1);
    ListOfTwo(CreateStep(AnyName, s1, SECOND, true, None).0);
  }

  lemma MergedTwo()
    ensures var v := BucketToMapping(Bucket(9, 3, DB)).(isDefault := false);
            && SameTriple(SECOND, v)
            && Merge(ALL, [FIRST.(isDefault := true), SECOND], [Some(Bucket(9, 3, DB))]) ==
               [FIRST.(isDefault := true), SECOND, v]
  {
    PlainBucket(9, 3);
    SearchStopsAtDefault();
    OneBucket([FIRST.(isDefault := true), SECOND], Bucket(9, 3, DB));
  }

  /** A stored `autogen` mapping listed after its database's default does not hide the
      virtual one: one organization, database and policy stands twice in the listing of a
      store made by two accepted Creates. */
  lemma DuplicateListed()
    ensures var s1 := CreateStep(AnyName, EMPTY, FIRST, true, None);
            var s2 := CreateStep(AnyName, s1.0, SECOND, true, None);
            var v := BucketToMapping(Bucket(9, 3, DB)).(isDefault := false);
            && s1.1 == None && s2.1 == None && SameTriple(SECOND, v)
            && Merge(ALL, Physical(s2.0, ALL), [Some(Bucket(9, 3, DB))]) == [FIRST.(isDefault := true), SECOND, v]
  {
    TwoStored();
    MergedTwo();
  }

  lemma OneBucket(ms: seq<Mapping>, b: Bucket)
    ensures Merge(ALL, ms, [Some(b)]) == AddBucket(ALL, ms, Some(b))
  {
    assert [Some(b)][..0] == [];
  }

  lemma MergedWithOther()
    ensures Merge(ALL, [SECOND.(isDefault := true)], [Some(Bucket(9, 4, DB))]) == [SECOND.(isDefault := true)]
    ensures var v := BucketToMapping(Bucket(9, 4, DB));
            v.isDefault && Merge(ALL, [FIRST.(isDefault := true)], [Some(Bucket(9, 4, DB))]) ==
                           [FIRST.(isDefault := true), v.(isDefault := false)]
  {
    PlainBucket(9, 4);
    OneBucket([FIRST.(isDefault := true)], Bucket(9, 4, DB));
    OneBucket([SECOND.(isDefault := true)], Bucket(9, 4, DB));
    assert |AUTOGEN| == 7;
  }

  /** Without an organization in the filter, a stored mapping of organization 3 hides the
      bucket of organization 4. */
  lemma OtherOrganizationHides()
    ensures var s := CreateStep(AnyName, EMPTY, SECOND, true, None).0;
            Merge(ALL, Physical(s, ALL), [Some(Bucket(9, 4, DB))]) == [SECOND.(isDefault := true)]
  {
    Accepted(SECOND);
    OneStored(SECOND);
    MergedWithOther();
  }

  /** And a stored default of organization 3 takes the only default of organization 4. */
  lemma OtherOrganizationTakesDefault()
    ensures var s := CreateStep(AnyName, EMPTY, FIRST, true, None).0;
            var v := BucketToMapping(Bucket(9, 4, DB));
            v.isDefault && Merge(ALL, Physical(s, ALL), [Some(Bucket(9, 4, DB))]) ==
                           [FIRST.(isDefault := true), v.(isDefault := false)]
  {
    Accepted(FIRST);
    OneStored(FIRST);
    MergedWithOther();
  }
}
