/** kv.Index: a bucket of keys `foreign/primary` whose values are the primary keys,
    walked with a prefix cursor. */
module KvIndex {
  import opened Wrappers
  import opened Bytes
  import opened BoltCursor

  const SLASH: Byte := 47

  predicate NoSlash(k: Key) {
    SLASH !in k
  }

  /** None is ErrKeyInvalidCharacters. */
  function IndexKey(fk: Key, pk: Key): (r: Option<Key>)
    ensures r.Some? <==> NoSlash(fk) && NoSlash(pk)
  {
    if NoSlash(fk) && NoSlash(pk) then Some(fk + [SLASH] + pk) else None
  }

  /** Splits at the first slash; None is a malformed index key. */
  function KeyParts(k: Key): (r: Option<(Key, Key)>)
    ensures r.Some? ==> NoSlash(r.value.0) && k == r.value.0 + [SLASH] + r.value.1
    ensures r.None? ==> NoSlash(k)
  {
    if k == [] then None
    else if k[0] == SLASH then Some(([], k[1..]))
    else
      var rest := KeyParts(k[1..]);
      if rest.None? then None else Some(([k[0]] + rest.value.0, rest.value.1))
  }

  /** Splitting undoes joining. */
  lemma {:induction false} KeyPartsOfIndexKey(fk: Key, pk: Key)
    requires NoSlash(fk)
    ensures KeyParts(fk + [SLASH] + pk) == Some((fk, pk))
  {
    var k := fk + [SLASH] + pk;
    if fk == [] {
      assert k[1..] == pk;
    } else {
      assert k[1..] == fk[1..] + [SLASH] + pk;
      KeyPartsOfIndexKey(fk[1..], pk);
      assert fk == [fk[0]] + fk[1..];
    }
  }

  /** Every key splits, and maps to its primary part. */
  ghost predicate WellFormed(index: map<Key, Key>) {
    forall k :: k in index ==>
      && KeyParts(k).Some? && NoSlash(KeyParts(k).value.1) && index[k] == KeyParts(k).value.1
  }

  /** The index lists `pk` under `fk`. */
  ghost predicate Lists(index: map<Key, Key>, fk: Key, pk: Key) {
    IndexKey(fk, pk).Some? && IndexKey(fk, pk).value in index
  }

  /** A key that cannot be formed leaves the index alone; callers see None. */
  function Insert(index: map<Key, Key>, fk: Key, pk: Key): (r: Option<map<Key, Key>>)
    ensures r.Some? <==> NoSlash(fk) && NoSlash(pk)
    ensures r.Some? && WellFormed(index) ==> WellFormed(r.value)
    ensures r.Some? ==> forall f, p {:trigger Lists(r.value, f, p)} ::
              Lists(r.value, f, p) <==> Lists(index, f, p) || (f == fk && p == pk)
  {
    var key := IndexKey(fk, pk);
    if key.None? then None
    else
      KeyPartsOfIndexKey(fk, pk);
      var next := index[key.value := pk];
      assert forall f, p {:trigger Lists(next, f, p)} ::
          Lists(next, f, p) <==> Lists(index, f, p) || (f == fk && p == pk) by {
        IndexKeyInjective(fk, pk);
      }
      Some(next)
  }

  function Delete(index: map<Key, Key>, fk: Key, pk: Key): (r: Option<map<Key, Key>>)
    ensures r.Some? <==> NoSlash(fk) && NoSlash(pk)
    ensures r.Some? && WellFormed(index) ==> WellFormed(r.value)
    ensures r.Some? ==> forall f, p {:trigger Lists(r.value, f, p)} ::
              Lists(r.value, f, p) <==> Lists(index, f, p) && !(f == fk && p == pk)
  {
    var key := IndexKey(fk, pk);
    if key.None? then None
    else
      var next := index - {key.value};
      assert forall f, p {:trigger Lists(next, f, p)} ::
          Lists(next, f, p) <==> Lists(index, f, p) && !(f == fk && p == pk) by {
        IndexKeyInjective(fk, pk);
      }
      Some(next)
  }

  lemma IndexKeyInjective(fk: Key, pk: Key)
    requires NoSlash(fk)
    ensures forall f, p {:trigger IndexKey(f, p)} ::
              IndexKey(f, p).Some? && IndexKey(f, p) == IndexKey(fk, pk) ==> f == fk && p == pk
  {
    KeyPartsOfIndexKey(fk, pk);
    forall f, p | IndexKey(f, p).Some? && IndexKey(f, p) == IndexKey(fk, pk)
      ensures f == fk && p == pk
    {
      KeyPartsOfIndexKey(f, p);
    }
  }

  /** The primary keys, in order, of those index keys whose foreign part is exactly `fk`. */
  function Primaries(fk: Key, ks: seq<Key>): (r: seq<Key>)
    ensures forall p :: p in r ==> NoSlash(fk) && fk + [SLASH] + p in ks
    ensures forall k :: k in ks && KeyParts(k).Some? && KeyParts(k).value.0 == fk ==> KeyParts(k).value.1 in r
  {
    if ks == [] then []
    else
      var parts := KeyParts(ks[0]);
      if parts.Some? && parts.value.0 == fk then [parts.value.1] + Primaries(fk, ks[1..])
      else Primaries(fk, ks[1..])
  }

  lemma {:induction false} PrimariesAscending(fk: Key, ks: seq<Key>)
    requires Ascending(ks)
    ensures Ascending(Primaries(fk, ks))
  {
    if ks == [] {
    } else {
      PrimariesAscending(fk, ks[1..]);
      var parts := KeyParts(ks[0]);
      if parts.Some? && parts.value.0 == fk {
        var rest := Primaries(fk, ks[1..]);
        forall j | 0 <= j < |rest|
          ensures Less(parts.value.1, rest[j])
        {
          assert rest[j] in rest;
          assert fk + [SLASH] + rest[j] in ks[1..];
          LessAppend(fk + [SLASH], parts.value.1, rest[j]);
        }
      }
    }
  }

  function In<V>(source: map<Key, V>): Key -> bool {
    k => k in source
  }

  /** Index.Walk: the primary keys whose source entries the visitor is shown, in order.
      Foreign keys that merely start with `fk` are passed over. */
  method Walk<V>(index: map<Key, Key>, source: map<Key, V>, fk: Key) returns (pks: seq<Key>)
    requires WellFormed(index)
    ensures Ascending(pks)
    ensures forall p :: p in pks <==> Lists(index, fk, p) && p in source
  {
    var found := ReadIndex(index, fk);
    pks := [];
    var i := 0;
    while i < |found|
      invariant 0 <= i <= |found|
      invariant pks == Select(In(source), found[..i])
    {
      SelectStep(In(source), found, i);
      if found[i] in source {
        pks := pks + [found[i]];
      }
      i := i + 1;
    }
    assert found[..i] == found;
    SelectAscending(In(source), found);
  }

  /** The cursor loop of Walk. */
  method ReadIndex(index: map<Key, Key>, fk: Key) returns (found: seq<Key>)
    requires WellFormed(index)
    ensures Ascending(found)
    ensures forall p :: p in found <==> Lists(index, fk, p)
  {
    var keys := SortedKeys(index.Keys);
    assert BucketKeys(keys) by {
      assert forall k :: k in keys ==> KeyParts(k).Some?;
    }
    var cursor := ForwardCursor(keys, fk, WithPrefix(fk));
    ghost var run := Matching(keys, fk, WithPrefix(fk));
    found := [];
    ghost var read: seq<Key> := [];
    ReadStep(read, run);
    var ik := cursor.Next();
    while ik.Some?
      invariant cursor.Valid()
      invariant ik.Some? ==> run == read + [ik.value] + cursor.Remaining()
      invariant ik.None? ==> run == read
      invariant found == Primaries(fk, read)
      decreases |cursor.Remaining()| + if ik.Some? then 1 else 0
    {
      assert ik.value in run && ik.value in index;
      var parts := KeyParts(ik.value);
      PrimariesAppend(fk, read, ik.value);
      if parts.value.0 == fk {
        found := found + [index[ik.value]];
      }
      read := read + [ik.value];
      ReadStep(read, cursor.Remaining());
      ik := cursor.Next();
    }
    assert read == run;
    WalkedPrimaries(index, keys, fk);
  }

  lemma {:induction false} PrimariesAppend(fk: Key, ks: seq<Key>, k: Key)
    requires KeyParts(k).Some?
    ensures Primaries(fk, ks + [k]) ==
            Primaries(fk, ks) + (if KeyParts(k).value.0 == fk then [KeyParts(k).value.1] else [])
  {
    if ks == [] {
    } else {
      assert (ks + [k])[1..] == ks[1..] + [k];
      PrimariesAppend(fk, ks[1..], k);
    }
  }

  /** The prefix range of the index bucket, cut down to the exact foreign key, is
      exactly what the index lists under it. */
  lemma WalkedPrimaries(index: map<Key, Key>, keys: seq<Key>, fk: Key)
    requires WellFormed(index) && BucketKeys(keys)
    requires forall k :: k in keys <==> k in index
    ensures var found := Primaries(fk, Matching(keys, fk, WithPrefix(fk)));
            && Ascending(found)
            && (forall p :: p in found <==> Lists(index, fk, p))
  {
    var run := Matching(keys, fk, WithPrefix(fk));
    PrefixEnumeration(keys, fk);
    PrimariesAscending(fk, run);
    forall p
      ensures p in Primaries(fk, run) <==> Lists(index, fk, p)
    {
      if p in Primaries(fk, run) {
        assert fk + [SLASH] + p in index;
        KeyPartsOfIndexKey(fk, p);
      }
      if Lists(index, fk, p) {
        KeyPartsOfIndexKey(fk, p);
        var k := fk + [SLASH] + p;
        assert k[..|fk|] == fk;
        assert k in run;
      }
    }
  }
}
