/** Byte strings, their lexicographic order (the order bolt keeps keys in) and
    the strictly ascending enumeration of a finite set of keys. */
module Bytes {

  type Byte = x: int | 0 <= x < 256

  type Key = seq<Byte>

  /** Strict lexicographic order, a proper prefix first. */
  predicate Less(a: Key, b: Key) {
    if |b| == 0 then false
    else if |a| == 0 then true
    else a[0] < b[0] || (a[0] == b[0] && Less(a[1..], b[1..]))
  }

  predicate AtMost(a: Key, b: Key) {
    a == b || Less(a, b)
  }

  lemma {:induction false} LessIrreflexive(a: Key)
    ensures !Less(a, a)
  {
    if a == [] {
    } else {
      LessIrreflexive(a[1..]);
    }
  }

  lemma {:induction false} LessTransitive(a: Key, b: Key, c: Key)
    requires Less(a, b) && Less(b, c)
    ensures Less(a, c)
  {
    if |a| > 0 && a[0] == b[0] && b[0] == c[0] {
      LessTransitive(a[1..], b[1..], c[1..]);
    }
  }

  lemma {:induction false} LessTotal(a: Key, b: Key)
    ensures a == b || Less(a, b) || Less(b, a)
  {
    if |a| > 0 && |b| > 0 && a[0] == b[0] {
      LessTotal(a[1..], b[1..]);
      assert a == [a[0]] + a[1..] && b == [b[0]] + b[1..];
    }
  }

  lemma {:induction false} LessAppend(p: Key, a: Key, b: Key)
    ensures Less(p + a, p + b) <==> Less(a, b)
  {
    if p == [] {
      assert p + a == a && p + b == b;
    } else {
      assert (p + a)[1..] == p[1..] + a && (p + b)[1..] == p[1..] + b;
      LessAppend(p[1..], a, b);
    }
  }

  /** With heads of one length, the heads decide unless they are equal. */
  lemma {:induction false} LessSameLengthHeads(a: Key, b: Key, x: Key, y: Key)
    requires |a| == |b| && a != b
    ensures Less(a + x, b + y) <==> Less(a, b)
  {
    assert (a + x)[1..] == a[1..] + x && (b + y)[1..] == b[1..] + y;
    if a[0] == b[0] {
      assert a == [a[0]] + a[1..] && b == [b[0]] + b[1..];
      LessSameLengthHeads(a[1..], b[1..], x, y);
    }
  }

  predicate HasPrefix(k: Key, p: Key) {
    |p| <= |k| && k[..|p|] == p
  }

  /** Keys with one prefix are contiguous: once the order has moved past a key that
      has the prefix to one that lacks it, no later key has it. */
  lemma {:induction false} PrefixContiguous(a: Key, b: Key, c: Key, p: Key)
    requires HasPrefix(a, p) && HasPrefix(c, p)
    requires AtMost(a, b) && AtMost(b, c)
    ensures HasPrefix(b, p)
  {
    if p != [] && a != b && b != c {
      assert a[0] == p[0] && c[0] == p[0] && b[0] == p[0];
      assert a == [a[0]] + a[1..] && b == [b[0]] + b[1..] && c == [c[0]] + c[1..];
      assert a[1..][..|p| - 1] == p[1..] && c[1..][..|p| - 1] == p[1..];
      PrefixContiguous(a[1..], b[1..], c[1..], p[1..]);
      assert b[..|p|] == [b[0]] + b[1..][..|p| - 1];
    }
  }

  /** A prefix comes no later than the keys it starts. */
  lemma {:induction false} PrefixAtMost(k: Key, p: Key)
    requires HasPrefix(k, p)
    ensures AtMost(p, k)
  {
    if p == [] {
    } else {
      assert k[1..][..|p| - 1] == p[1..];
      PrefixAtMost(k[1..], p[1..]);
      assert k == [k[0]] + k[1..] && p == [p[0]] + p[1..];
    }
  }

  ghost predicate Ascending(s: seq<Key>) {
    forall i, j :: 0 <= i < j < |s| ==> Less(s[i], s[j])
  }

  lemma AscendingDistinct(s: seq<Key>)
    requires Ascending(s)
    ensures forall i, j :: 0 <= i < |s| && 0 <= j < |s| && s[i] == s[j] ==> i == j
  {
    forall i, j | 0 <= i < |s| && 0 <= j < |s| && s[i] == s[j]
      ensures i == j
    {
      LessIrreflexive(s[i]);
    }
  }

  /** An ascending sequence is determined by its elements. */
  lemma {:induction false} AscendingUnique(s: seq<Key>, t: seq<Key>)
    requires Ascending(s) && Ascending(t)
    requires forall k :: k in s <==> k in t
    ensures s == t
  {
    if s == [] {
      assert forall i :: 0 <= i < |t| ==> t[i] in s;
    } else {
      assert s[0] in t;
      assert t[0] in s;
      var i :| 0 <= i < |t| && t[i] == s[0];
      var j :| 0 <= j < |s| && s[j] == t[0];
      if i > 0 && j > 0 {
        LessTransitive(s[0], t[0], s[0]);
        LessIrreflexive(s[0]);
      }
      AscendingDistinct(s);
      AscendingDistinct(t);
      forall k
        ensures k in s[1..] <==> k in t[1..]
      {
        if k in s[1..] { assert k in t && k != s[0]; }
        if k in t[1..] { assert k in s && k != t[0]; }
      }
      AscendingUnique(s[1..], t[1..]);
      assert s == [s[0]] + s[1..] && t == [t[0]] + t[1..];
    }
  }

  predicate IsLeast(s: set<Key>, m: Key) {
    m in s && forall k :: k in s ==> AtMost(m, k)
  }

  lemma {:induction false} LeastExists(s: set<Key>)
    requires s != {}
    ensures exists m :: IsLeast(s, m)
  {
    var x :| x in s;
    if s == {x} {
      assert IsLeast(s, x);
    } else {
      LeastExists(s - {x});
      var m :| IsLeast(s - {x}, m);
      LessTotal(x, m);
      if Less(x, m) {
        forall k | k in s
          ensures AtMost(x, k)
        {
          if k != x && k != m {
            assert k in s - {x};
            LessTransitive(x, m, k);
          }
        }
        assert IsLeast(s, x);
      } else {
        forall k | k in s
          ensures AtMost(m, k)
        {
          if k != x { assert k in s - {x}; }
        }
        assert IsLeast(s, m);
      }
    }
  }

  lemma LeastUnique(s: set<Key>)
    ensures forall m, n :: IsLeast(s, m) && IsLeast(s, n) ==> m == n
  {
    forall m, n | IsLeast(s, m) && IsLeast(s, n)
      ensures m == n
    {
      if m != n {
        LessTransitive(m, n, m);
        LessIrreflexive(m);
      }
    }
  }

  function Least(s: set<Key>): (m: Key)
    requires s != {}
    ensures m in s
  {
    LeastExists(s);
    LeastUnique(s);
    var m :| IsLeast(s, m);
    m
  }

  lemma LeastIsLeast(s: set<Key>)
    requires s != {}
    ensures IsLeast(s, Least(s))
  {
    LeastExists(s);
  }

  /** The keys of a bucket in bolt's order. */
  function SortedKeys(s: set<Key>): (r: seq<Key>)
    ensures Ascending(r)
    ensures forall k :: k in r <==> k in s
  {
    if s == {} then []
    else
      var m := Least(s);
      LeastIsLeast(s);
      var rest := SortedKeys(s - {m});
      assert forall i :: 0 <= i < |rest| ==> rest[i] in s - {m} && Less(m, rest[i]);
      [m] + rest
  }

  /** The keys that pass a test, in the order they come. */
  function Select(ok: Key -> bool, ks: seq<Key>): (r: seq<Key>)
    ensures forall k :: k in r <==> k in ks && ok(k)
  {
    if ks == [] then []
    else if ok(ks[0]) then [ks[0]] + Select(ok, ks[1..])
    else Select(ok, ks[1..])
  }

  lemma {:induction false} SelectAscending(ok: Key -> bool, ks: seq<Key>)
    requires Ascending(ks)
    ensures Ascending(Select(ok, ks))
  {
    if ks == [] {
    } else {
      SelectAscending(ok, ks[1..]);
      var rest := Select(ok, ks[1..]);
      forall j | 0 <= j < |rest|
        ensures Less(ks[0], rest[j])
      {
        assert rest[j] in ks[1..];
      }
    }
  }

  lemma {:induction false} SelectAppend(ok: Key -> bool, a: seq<Key>, b: seq<Key>)
    ensures Select(ok, a + b) == Select(ok, a) + Select(ok, b)
  {
    if a == [] {
      assert a + b == b;
    } else {
      assert (a + b)[1..] == a[1..] + b;
      SelectAppend(ok, a[1..], b);
    }
  }

  lemma SelectStep(ok: Key -> bool, ks: seq<Key>, i: nat)
    requires i < |ks|
    ensures Select(ok, ks[..i + 1]) == Select(ok, ks[..i]) + (if ok(ks[i]) then [ks[i]] else [])
  {
    assert ks[..i + 1] == ks[..i] + [ks[i]];
    SelectAppend(ok, ks[..i], [ks[i]]);
  }

  lemma {:induction false} SelectNone(ok: Key -> bool, ks: seq<Key>)
    requires forall k :: k in ks ==> !ok(k)
    ensures Select(ok, ks) == []
  {
    if ks == [] {
    } else {
      SelectNone(ok, ks[1..]);
    }
  }

  lemma {:induction false} SelectAll(ok: Key -> bool, ks: seq<Key>)
    requires forall k :: k in ks ==> ok(k)
    ensures Select(ok, ks) == ks
  {
    if ks == [] {
    } else {
      SelectAll(ok, ks[1..]);
      assert ks == [ks[0]] + ks[1..];
    }
  }

  /** Ordered candidates that hold the same passing keys give the same selection. */
  lemma SelectAgrees(ok: Key -> bool, a: seq<Key>, b: seq<Key>)
    requires Ascending(a) && Ascending(b)
    requires forall k :: ok(k) ==> (k in a <==> k in b)
    ensures Select(ok, a) == Select(ok, b)
  {
    SelectAscending(ok, a);
    SelectAscending(ok, b);
    AscendingUnique(Select(ok, a), Select(ok, b));
  }
}
