/** The DBRP service itself: its methods walk the indexes and update the buckets in
    place, and are proved to do what module Dbrp says. */
module DbrpService {
  import opened Wrappers
  import opened Bytes
  import opened Ids
  import opened BoltCursor
  import opened KvIndex
  import opened Dbrp
  import opened DbrpListing

  /** FindMany's outcome; Panicked is the dereference of a missing default. */
  datatype Listing = Found(ms: seq<Mapping>) | Failed | Panicked

  /** The default entries are encoded ids, whatever they name. */
  ghost predicate DefaultsEncoded(s: Store) {
    forall c :: c in s.defaults ==> Decode(s.defaults[c]).Ok? && Enc(Decode(s.defaults[c]).value) == s.defaults[c]
  }

  /** A store FindMany can read, with or without the invariant. */
  ghost predicate Readable(s: Store) {
    KeyedById(s) && DefaultsEncoded(s) && WellFormed(s.byOrgDb) && WellFormed(s.byOrg)
  }

  lemma InvReadable(s: Store)
    requires Inv(s)
    ensures Readable(s)
  {
    forall c | c in s.defaults
      ensures Decode(s.defaults[c]).Ok? && Enc(Decode(s.defaults[c]).value) == s.defaults[c]
    {
      DecodeEncode(s.mappings[s.defaults[c]].id);
    }
  }

  /** A mapping whose database has no default entry. */
  predicate Defaultless(s: Store, k: Key) {
    k in s.mappings && ForeignKey(s.mappings[k]) !in s.defaults
  }

  /** What visiting these keys comes to: the accepted mappings, or a panic as soon as a
      database has no default entry. */
  ghost function Visited(s: Store, f: Filter, ks: seq<Key>): Listing
    requires forall k :: k in ks ==> k in s.mappings
  {
    if exists k :: k in ks && Defaultless(s, k) then Panicked else Found(Shown(s, Kept(s, f, ks)))
  }

  ghost predicate AllDefaulted(s: Store, ks: seq<Key>, n: int)
    requires n <= |ks|
  {
    forall j :: 0 <= j < n ==> !Defaultless(s, ks[j])
  }

  lemma AllDefaultedStep(s: Store, ks: seq<Key>, n: nat)
    requires n < |ks| && AllDefaulted(s, ks, n) && !Defaultless(s, ks[n])
    ensures AllDefaulted(s, ks, n + 1)
  {
  }

  lemma VisitedAll(s: Store, f: Filter, ks: seq<Key>)
    requires AllDefaulted(s, ks, |ks|) && forall k :: k in ks ==> k in s.mappings
    ensures Visited(s, f, ks) == Found(Shown(s, Kept(s, f, ks))) && ks[..|ks|] == ks
  {
  }

  class Service {
    const printable: Key -> bool
    var mappings: map<Key, Mapping>
    var byOrgDb: map<Key, Key>
    var byOrg: map<Key, Key>
    var defaults: map<Key, Key>

    function State(): Store
      reads this
    {
      Store(mappings, byOrgDb, byOrg, defaults)
    }

    constructor (printable: Key -> bool)
      ensures State() == EMPTY && Inv(State()) && this.printable == printable
    {
      this.printable := printable;
      mappings, byOrgDb, byOrg, defaults := map[], map[], map[], map[];
    }

    /** isDBRPUnique: a walk over the mappings of the same database. */
    method IsUnique(m: Mapping) returns (unique: bool)
      requires Inv(State())
      ensures unique <==> !Taken(State(), m)
    {
      var f := ForeignKey(m);
      var pks := Walk(byOrgDb, mappings, f);
      assert forall p :: p in pks <==> p in mappings && ForeignKey(mappings[p]) == f;
      var held := PolicyHeld(pks, m);
      return !held;
    }

    /** Whether another mapping among these has the policy. */
    method PolicyHeld(pks: seq<Key>, m: Mapping) returns (held: bool)
      requires forall p :: p in pks ==> p in mappings
      ensures held <==> exists p :: p in pks && mappings[p].id != m.id && mappings[p].rp == m.rp
    {
      var i := 0;
      while i < |pks|
        invariant 0 <= i <= |pks|
        invariant forall j :: 0 <= j < i ==> mappings[pks[j]].id == m.id || mappings[pks[j]].rp != m.rp
      {
        assert pks[i] in pks;
        var other := mappings[pks[i]];
        if other.id != m.id && other.rp == m.rp { return true; }
        i := i + 1;
      }
      return false;
    }

    /** getFirstBut: the first listed id of a database other than `skip`. */
    method GetFirstBut(f: Key, skip: Key) returns (first: Option<Key>)
      requires WellFormed(byOrgDb)
      requires forall p :: Lists(byOrgDb, f, p) && p in mappings && p != skip <==> p in Others(State(), f, skip)
      ensures first == if Others(State(), f, skip) == {} then None else Some(Least(Others(State(), f, skip)))
    {
      var pks := Walk(byOrgDb, mappings, f);
      ghost var others := Others(State(), f, skip);
      var i := 0;
      while i < |pks|
        invariant 0 <= i <= |pks|
        invariant forall j :: 0 <= j < i ==> pks[j] == skip
      {
        if pks[i] != skip {
          FirstIsLeast(others, pks, i, skip);
          return Some(pks[i]);
        }
        i := i + 1;
      }
      assert forall p :: p in others ==> p in pks;
      return None;
    }

    /** What Create checks before it opens its transaction. */
    method CheckCreate(m: Mapping, bucketFound: bool, virt: Option<Bucket>) returns (e: Option<Error>)
      requires Inv(State())
      ensures e == CreateGuard(printable, State(), m, bucketFound, virt)
    {
      if !Validate(printable, m) { return Some(InvalidMapping); }
      if !bucketFound { return Some(BucketNotFound); }
      var found := Lookup(State(), m.org, m.id, virt);
      if found.Ok? && !found.value.virtual { return Some(AlreadyExists); }
      var unique := IsUnique(m);
      if !unique { return Some(AlreadyExists); }
      if !Valid(m.id) { return Some(InvalidDbrpId); }
      return None;
    }

    method WriteCreate(given: Mapping)
      requires Valid(given.id) && Valid(given.org) && NoSlash(given.database)
      modifies this
      ensures State() == CreateWrite(old(State()), given)
    {
      var m := given;
      var k, f := Enc(m.id), ForeignKey(m);
      EncNoSlash(m.id);
      EncNoSlash(m.org);
      ForeignKeyNoSlash(m);
      byOrgDb := Insert(byOrgDb, f, k).value;
      byOrg := Insert(byOrg, Enc(m.org), k).value;
      if f !in defaults { m := m.(isDefault := true); }
      mappings := mappings[k := m];
      if m.isDefault { defaults := defaults[f := k]; }
    }

    method Create(given: Mapping, generated: Id, bucketFound: bool, virt: Option<Bucket>) returns (e: Option<Error>)
      requires Inv(State())
      modifies this
      ensures var m := given.(id := if Valid(given.id) then given.id else generated);
              && (State(), e) == CreateStep(printable, old(State()), m, bucketFound, virt)
              && (Proper(old(State()), Call.Create(m, bucketFound, virt)) ==> Inv(State()))
    {
      var m := given.(id := if Valid(given.id) then given.id else generated);
      CallKeeps(printable, State(), Call.Create(m, bucketFound, virt));
      e := CheckCreate(m, bucketFound, virt);
      if e.None? { WriteCreate(m); }
    }

    /** What Update checks before it opens its transaction, and the mapping it found. */
    method CheckUpdate(given: Mapping, virt: Option<Bucket>) returns (e: Option<Error>, was: Mapping)
      requires Inv(State())
      ensures e == UpdateGuard(printable, State(), given, virt)
      ensures e.None? ==> Lookup(State(), given.org, given.id, virt) == Ok(was)
    {
      was := given;
      if !Validate(printable, given) { return Some(InvalidMapping), was; }
      var found := Lookup(State(), given.org, given.id, virt);
      if found.Err? { return Some(NotFound), was; }
      was := found.value;
      var m := Frozen(given, was);
      var unique := IsUnique(m);
      if !unique { return Some(AlreadyExists), was; }
      if !Valid(m.id) || !Valid(m.org) || !Valid(m.bucket) { return Some(Internal), was; }
      return None, was;
    }

    method WriteUpdate(given: Mapping, was: Mapping)
      requires IndexesExact(State()) && Valid(was.id)
      modifies this
      ensures State() == UpdateWrite(old(State()), given, was)
    {
      var m := Frozen(given, was);
      var k, f := Enc(m.id), ForeignKey(m);
      ghost var s := State();
      mappings := mappings[k := m];
      if m.isDefault {
        defaults := defaults[f := k];
      } else if was.isDefault {
        OthersUnmoved(s, State(), f, k);
        var first := GetFirstBut(f, k);
        if first.Some? { defaults := defaults[f := first.value]; }
      }
    }

    method Update(given: Mapping, virt: Option<Bucket>) returns (e: Option<Error>)
      requires Inv(State())
      modifies this
      ensures (State(), e) == UpdateStep(printable, old(State()), given, virt)
      ensures Proper(old(State()), Call.Update(given, virt)) ==> Inv(State())
    {
      CallKeeps(printable, State(), Call.Update(given, virt));
      var was;
      e, was := CheckUpdate(given, virt);
      if e.None? { WriteUpdate(given, was); }
    }

    method WriteDelete(org: Id, id: Id, was: Mapping)
      requires IndexesExact(State()) && Valid(org) && Valid(id) && NoSlash(was.database)
      modifies this
      ensures State() == DeleteWrite(old(State()), org, id, was)
    {
      var k, f := Enc(id), ForeignKey(was);
      EncNoSlash(id);
      EncNoSlash(org);
      ForeignKeyNoSlash(was);
      ghost var s := State();
      mappings := mappings - {k};
      byOrgDb := KvIndex.Delete(byOrgDb, f, k).value;
      byOrg := KvIndex.Delete(byOrg, Enc(org), k).value;
      if was.isDefault {
        OthersUnmoved(s, State(), f, k);
        var first := GetFirstBut(f, k);
        defaults := if first.Some? then defaults[f := first.value] else defaults - {f};
      }
    }

    method Delete(org: Id, id: Id, virt: Option<Bucket>) returns (e: Option<Error>)
      requires Inv(State())
      modifies this
      ensures (State(), e) == DeleteStep(old(State()), org, id, virt)
      ensures Proper(old(State()), Call.Delete(org, id, virt)) ==> Inv(State())
    {
      CallKeeps(printable, State(), Call.Delete(org, id, virt));
      var found := Lookup(State(), org, id, virt);
      if found.Err? { return None; }
      if !Valid(org) { return Some(Internal); }
      assert NoSlash(found.value.database);
      WriteDelete(org, id, found.value);
      return None;
    }

    /** The memo repeats what the default bucket says; None records a missing default. */
    ghost predicate MemoAgrees(memo: map<Key, Option<Id>>)
      reads this
    {
      forall c :: c in memo ==> MemoEntry(c, memo[c])
    }

    ghost predicate MemoEntry(c: Key, d: Option<Id>)
      reads this
    {
      if d.None? then c !in defaults else c in defaults && Valid(d.value) && defaults[c] == Enc(d.value)
    }

    /** FindMany's `get`: a default id from the memo, or read once and remembered. */
    method GetDefault(memo: map<Key, Option<Id>>, c: Key)
      returns (next: map<Key, Option<Id>>, d: Result<Option<Id>, Error>)
      requires DefaultsEncoded(State()) && MemoAgrees(memo)
      ensures MemoAgrees(next)
      ensures d.Ok? && MemoEntry(c, d.value)
    {
      next := memo;
      if c !in memo {
        if c !in defaults {
          next := memo[c := None];
        } else {
          var id := Decode(defaults[c]);
          if id.Err? { return next, Err(Internal); }
          next := memo[c := Some(id.value)];
        }
      }
      d := Ok(next[c]);
    }

    /** The mapping under a key with its default flag; an error ends the listing. */
    method Flagged(memo: map<Key, Option<Id>>, k: Key)
      returns (next: map<Key, Option<Id>>, m: Result<Mapping, Listing>)
      requires KeyedById(State()) && DefaultsEncoded(State()) && MemoAgrees(memo) && k in mappings
      ensures MemoAgrees(next)
      ensures m == if Defaultless(State(), k) then Err(Panicked) else Ok(Overlay(State(), mappings[k]))
    {
      var stored := mappings[k];
      var d;
      next, d := GetDefault(memo, ForeignKey(stored));
      if d.Err? { return next, Err(Failed); }
      if d.value.None? { return next, Err(Panicked); }
      OverlayByMemo(State(), stored, d.value.value);
      return next, Ok(stored.(isDefault := stored.id == d.value.value));
    }

    /** FindMany's visitor: one more mapping in the list, or the end of it. */
    method VisitOne(memo: map<Key, Option<Id>>, f: Filter, k: Key, ms: seq<Mapping>)
      returns (next: map<Key, Option<Id>>, r: Result<seq<Mapping>, Listing>)
      requires KeyedById(State()) && DefaultsEncoded(State()) && MemoAgrees(memo) && k in mappings
      ensures MemoAgrees(next)
      ensures r == if Defaultless(State(), k) then Err(Panicked)
                   else if Accepts(f, Overlay(State(), mappings[k])) then Ok(ms + [Overlay(State(), mappings[k])])
                   else Ok(ms)
    {
      var m;
      next, m := Flagged(memo, k);
      match m {
        case Err(failure) => return next, Err(failure);
        case Ok(shown) => return next, Ok(if Accepts(f, shown) then ms + [shown] else ms);
      }
    }

    /** The visits over the keys of one path. */
    method Visit(f: Filter, ks: seq<Key>) returns (r: Listing)
      requires KeyedById(State()) && DefaultsEncoded(State())
      requires forall k :: k in ks ==> k in mappings
      ensures r == Visited(State(), f, ks)
    {
      var memo: map<Key, Option<Id>> := map[];
      var ms: seq<Mapping> := [];
      ghost var s := State();
      var i := 0;
      while i < |ks|
        invariant 0 <= i <= |ks|
        invariant ms == Shown(s, Kept(s, f, ks[..i]))
        invariant AllDefaulted(s, ks, i)
        invariant MemoAgrees(memo)
      {
        assert ks[i] in ks;
        ShownStep(s, f, ks, i);
        var more;
        memo, more := VisitOne(memo, f, ks[i], ms);
        match more {
          case Err(failure) => return failure;
          case Ok(longer) => ms := longer;
        }
        AllDefaultedStep(s, ks, i);
        i := i + 1;
      }
      VisitedAll(s, f, ks);
      return Found(ms);
    }

    /** The read of the stored mappings, through whichever bucket the filter allows. */
    method FindPhysical(f: Filter) returns (r: Listing)
      requires Readable(State())
      ensures Inv(State()) ==> r == Found(Physical(State(), f))
      ensures f.org.None? ==> r == Visited(State(), f, SortedKeys(mappings.Keys))
    {
      if f.org.None? {
        var ks := ScanKeys(mappings);
        r := Visit(f, ks);
        if Inv(State()) { NoneDefaultless(State(), ks); }
      } else {
        r := FindIndexed(f);
      }
    }

    /** The keys an index or the default bucket gives for a filter that names an
        organization. */
    method IndexKeys(f: Filter) returns (r: Result<seq<Key>, Listing>)
      requires WellFormed(byOrgDb) && WellFormed(byOrg) && f.org.Some?
      ensures r.Ok? ==> Ascending(r.value) && forall k :: k in r.value ==> k in mappings
      ensures Inv(State()) ==> r.Ok? && forall k :: Passes(State(), f)(k) ==> k in r.value
    {
      if f.database.Some? && |f.database.value| > 0 {
        var c := ComposeForeignKey(f.org.value, f.database.value);
        if f.isDefault == Some(true) {
          if Inv(State()) { DefaultPathCovers(State(), f); }
          if c !in defaults { return Ok([]); }
          if defaults[c] !in mappings { return Err(Failed); }
          return Ok([defaults[c]]);
        }
        var ks := Walk(byOrgDb, mappings, c);
        if Inv(State()) { OrgDatabasePathCovers(State(), f, ks); }
        return Ok(ks);
      }
      var ks := Walk(byOrg, mappings, if Valid(f.org.value) then Enc(f.org.value) else []);
      if Inv(State()) { OrgPathCovers(State(), f, ks); }
      return Ok(ks);
    }

    method FindIndexed(f: Filter) returns (r: Listing)
      requires Readable(State()) && f.org.Some?
      ensures Inv(State()) ==> r == Found(Physical(State(), f))
    {
      var keys := IndexKeys(f);
      match keys {
        case Err(failure) => return failure;
        case Ok(ks) =>
          r := Visit(f, ks);
          if Inv(State()) {
            NoneDefaultless(State(), ks);
            AnyCoveringPathAgrees(State(), f, ks);
          }
      }
    }

    /** The buckets argument is what the bucket service listed; None is its error. */
    method FindMany(f: Filter, buckets: Option<seq<Option<Bucket>>>) returns (r: Listing)
      requires Readable(State())
      ensures Inv(State()) ==> r == Found(if buckets.None? then Physical(State(), f)
                                          else Merge(f, Physical(State(), f), buckets.value))
      ensures f.org.None? ==> (r == Panicked <==> exists k :: k in mappings && Defaultless(State(), k))
    {
      r := FindPhysical(f);
      if !r.Found? || buckets.None? { return; }
      var ms := MergeLoop(f, r.ms, buckets.value);
      return Found(ms);
    }
  }

  /** The loop over the buckets. */
  method MergeLoop(f: Filter, stored: seq<Mapping>, buckets: seq<Option<Bucket>>) returns (ms: seq<Mapping>)
    ensures ms == Merge(f, stored, buckets)
  {
    ms := stored;
    var i := 0;
    while i < |buckets|
      invariant 0 <= i <= |buckets|
      invariant ms == Merge(f, stored, buckets[..i])
    {
      assert buckets[..i + 1][..i] == buckets[..i];
      if buckets[i].Some? {
        var v := ReconcileLoop(ms, BucketToMapping(buckets[i].value));
        if v.Some? && Accepts(f, v.value) { ms := ms + [v.value]; }
      }
      i := i + 1;
    }
    assert buckets[..i] == buckets;
  }

  method ReconcileLoop(ms: seq<Mapping>, v: Mapping) returns (r: Option<Mapping>)
    ensures r == Reconcile(ms, v)
  {
    var i := 0;
    while i < |ms|
      invariant 0 <= i <= |ms|
      invariant Reconcile(ms, v) == Reconcile(ms[i..], v)
    {
      if ms[i].database == v.database {
        if v.virtual && ms[i].rp == v.rp { return None; }
        if ms[i].isDefault && v.isDefault { return Some(v.(isDefault := false)); }
      }
      i := i + 1;
    }
    return Some(v);
  }

  /** The cursor scan over a whole bucket. */
  method ScanKeys<V>(bucket: map<Key, V>) returns (ks: seq<Key>)
    requires [] !in bucket
    ensures ks == SortedKeys(bucket.Keys)
  {
    var keys := SortedKeys(bucket.Keys);
    var cursor := new Cursor.At(keys, PLAIN, -1, None);
    var k := cursor.First();
    if k.None? { return []; }
    var rest := Drain(cursor);
    return [k.value] + rest;
  }

  lemma NoneDefaultless(s: Store, ks: seq<Key>)
    requires DefaultsExact(s)
    ensures forall k :: k in ks ==> !Defaultless(s, k)
  {
  }

  lemma OverlayByMemo(s: Store, m: Mapping, d: Id)
    requires Valid(m.id) && Valid(d) && ForeignKey(m) in s.defaults && s.defaults[ForeignKey(m)] == Enc(d)
    ensures Overlay(s, m) == m.(isDefault := m.id == d)
  {
    if Enc(m.id) == Enc(d) { EncInjective(m.id, d); }
  }

  lemma FirstIsLeast(others: set<Key>, pks: seq<Key>, i: nat, skip: Key)
    requires Ascending(pks) && i < |pks| && pks[i] != skip
    requires forall j :: 0 <= j < i ==> pks[j] == skip
    requires forall p :: p in pks && p != skip <==> p in others
    ensures others != {} && Least(others) == pks[i]
  {
    assert pks[i] in others;
    assert IsLeast(others, pks[i]) by {
      forall p | p in others
        ensures AtMost(pks[i], p)
      {
        var j :| 0 <= j < |pks| && pks[j] == p;
      }
    }
    LeastIsLeast(others);
    LeastUnique(others);
  }

  /** Writing or removing `skip` moves none of the other mappings of the database. */
  lemma OthersUnmoved(s: Store, t: Store, f: Key, skip: Key)
    requires IndexesExact(s)
    requires forall p :: p != skip ==> (p in s.mappings <==> p in t.mappings)
    requires forall p :: p != skip && p in s.mappings ==> t.mappings[p] == s.mappings[p]
    requires forall p :: p != skip ==> (Lists(t.byOrgDb, f, p) <==> Lists(s.byOrgDb, f, p))
    ensures Others(t, f, skip) == Others(s, f, skip)
    ensures forall p :: Lists(t.byOrgDb, f, p) && p in t.mappings && p != skip <==> p in Others(t, f, skip)
  {
  }

  // ------------------------------------------------- listings that panic

  /** After an Update from a sound store some mapping has no default entry exactly when the
      database it was found under had none and the Update asked for none. */
  lemma UpdateLeavesDefaultlessIff(s: Store, m: Mapping, was: Mapping)
    requires Inv(s) && Valid(was.id) && Valid(was.org) && NoSlash(was.database)
    ensures (exists k :: Defaultless(UpdateWrite(s, m, was), k)) <==> !m.isDefault && ForeignKey(was) !in s.defaults
  {
    var t := UpdateWrite(s, m, was);
    var k, f := Enc(was.id), ForeignKey(was);
    assert ForeignKey(t.mappings[k]) == f;
    if f !in s.defaults {
      assert Others(s, f, k) == {};
      if !m.isDefault { assert Defaultless(t, k); }
    }
  }

  /** The Update of a bucket's virtual mapping on the empty store; the scan after it
      panics. */
  lemma UpdateThenPanics()
    ensures var m := Mapping(7, [100], [114], false, false, 1, 7);
            var r := UpdateStep(AnyName, EMPTY, m, Some(Bucket(7, 1, [100])));
            && r.1 == None && Readable(r.0)
            && forall f :: Visited(r.0, f, SortedKeys(r.0.mappings.Keys)) == Panicked
  {
    EmptyInv();
    var m := Mapping(7, [100], [114], false, false, 1, 7);
    var was := BucketToMapping(Bucket(7, 1, [100]));
    assert !Taken(EMPTY, Frozen(m, was));
    assert UpdateGuard(AnyName, EMPTY, m, Some(Bucket(7, 1, [100]))) == None;
    UpdateLeavesDefaultlessIff(EMPTY, m, was);
  }
}
