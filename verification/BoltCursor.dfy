/** The bolt-backed cursor of the key-value store: a position in the ascending
    keys of a bucket, a remembered first key, a prefix and a limit. */
module BoltCursor {
  import opened Wrappers
  import opened Bytes

  datatype Direction = Forwards | Backwards

  datatype Config = Config(direction: Direction, prefix: Option<Key>, skipFirst: bool, limit: Option<int>)

  const PLAIN := Config(Forwards, None, false, None)

  function WithPrefix(p: Key): Config {
    Config(Forwards, Some(p), false, None)
  }

  predicate Missing(cfg: Config, k: Key) {
    cfg.prefix.Some? && !HasPrefix(k, cfg.prefix.value)
  }

  /** The keys bolt can hold: ascending and none empty. */
  ghost predicate BucketKeys(keys: seq<Key>) {
    Ascending(keys) && [] !in keys
  }

  /** Where bolt's Seek lands: the first key at or after `seek`. */
  function SeekPos(keys: seq<Key>, seek: Key): (r: nat)
    ensures r <= |keys|
    ensures forall i :: 0 <= i < r ==> !AtMost(seek, keys[i])
    ensures r < |keys| ==> AtMost(seek, keys[r])
  {
    if keys == [] || AtMost(seek, keys[0]) then 0 else 1 + SeekPos(keys[1..], seek)
  }

  function Reverse<T>(s: seq<T>): (r: seq<T>)
    ensures |r| == |s|
    ensures forall i :: 0 <= i < |s| ==> r[i] == s[|s| - 1 - i]
  {
    if s == [] then [] else Reverse(s[1..]) + [s[0]]
  }

  /** The keys up to the first one outside the prefix. */
  function Run(cfg: Config, s: seq<Key>): seq<Key> {
    if s == [] || Missing(cfg, s[0]) then [] else [s[0]] + Run(cfg, s[1..])
  }

  /** What a limit leaves of `s` once `seen` keys have been handed out. */
  function Cut(limit: Option<int>, seen: nat, s: seq<Key>): seq<Key> {
    if limit.None? || seen + |s| <= limit.value then s
    else if limit.value <= seen then []
    else s[..limit.value - seen]
  }

  function Wanted(seek: Key, cfg: Config): Key -> bool {
    k => AtMost(seek, k) && !Missing(cfg, k)
  }

  /** Reference enumeration: a filter over the whole bucket. */
  function Matching(keys: seq<Key>, seek: Key, cfg: Config): seq<Key> {
    Select(Wanted(seek, cfg), keys)
  }

  function Skip(skip: bool, s: seq<Key>): seq<Key> {
    if skip && s != [] then s[1..] else s
  }

  /** Leaving the prefix is for good. */
  ghost predicate MissingIsFinal(cfg: Config, s: seq<Key>) {
    forall i, j :: 0 <= i < j < |s| && Missing(cfg, s[i]) ==> Missing(cfg, s[j])
  }

  /** The keys still in front of bolt's own cursor. */
  ghost function Ahead(cfg: Config, keys: seq<Key>, pos: int): seq<Key>
    requires -1 <= pos <= |keys|
  {
    if cfg.direction.Backwards? then (if pos <= 0 then [] else Reverse(keys[..pos]))
    else if pos + 1 <= |keys| then keys[pos + 1..]
    else []
  }

  /** What would follow if there were no limit. */
  ghost function Pending(cfg: Config, keys: seq<Key>, pos: int, key: Option<Key>): seq<Key>
    requires -1 <= pos <= |keys|
  {
    if key.None? then Run(cfg, Ahead(cfg, keys, pos))
    else if Missing(cfg, key.value) then []
    else [key.value] + Run(cfg, Ahead(cfg, keys, pos))
  }

  class Cursor {
    const keys: seq<Key>
    const config: Config
    var pos: int
    var key: Option<Key>
    var closed: bool
    var seen: nat

    ghost predicate Valid()
      reads this
    {
      && -1 <= pos <= |keys|
      && MissingIsFinal(config, Ahead(config, keys, pos))
    }

    /** Everything later calls of Next will return. */
    ghost function Remaining(): seq<Key>
      reads this
      requires Valid()
    {
      if closed then [] else Cut(config.limit, seen, Pending(config, keys, pos, key))
    }

    constructor At(keys: seq<Key>, config: Config, pos: int, key: Option<Key>)
      requires BucketKeys(keys) && -1 <= pos <= |keys|
      ensures this.keys == keys && this.config == config
      ensures this.pos == pos && this.key == key && !closed && seen == 0
    {
      this.keys, this.config := keys, config;
      this.pos, this.key, this.closed, this.seen := pos, key, false, 0;
    }

    method Close()
      requires Valid()
      modifies this`closed
      ensures Valid() && closed && Remaining() == []
    {
      closed := true;
    }

    /** bolt's First: back to the start, whatever was remembered. */
    method First() returns (k: Option<Key>)
      requires Valid() && config == PLAIN
      modifies this`pos
      ensures Valid() && key == old(key)
      ensures !closed && key.None? ==> k == (if keys == [] then None else Some(keys[0]))
      ensures !closed && key.None? ==> Remaining() == (if keys == [] then [] else keys[1..])
    {
      if closed { return None; }
      pos := 0;
      if keys != [] {
        k := Some(keys[0]);
        RunWithoutPrefix(config, keys[1..]);
      } else {
        k := None;
      }
    }

    /** Hands out the next remaining key, or nothing for ever. */
    method Next() returns (k: Option<Key>)
      requires Valid()
      modifies this`pos, this`key, this`seen
      ensures Valid() && closed == old(closed)
      ensures old(Remaining()) == [] ==> k == None && Remaining() == []
      ensures old(Remaining()) != [] ==>
                k == Some(old(Remaining())[0]) && Remaining() == old(Remaining())[1..]
      ensures key.None? || key == old(key)
    {
      if closed || (config.limit.Some? && seen >= config.limit.value)
         || (key.Some? && Missing(config, key.value)) {
        return None;
      }
      CutStep(config.limit, seen, Pending(config, keys, pos, key));
      if key.Some? {
        k, key := key, None;
        seen := seen + 1;
        return;
      }
      k := Move();
      if k.None? || Missing(config, k.value) {
        k := None;
      } else {
        seen := seen + 1;
      }
    }

    /** bolt's own Next or Prev, as the direction says. */
    method Move() returns (k: Option<Key>)
      requires Valid()
      modifies this`pos
      ensures Valid()
      ensures var ahead := Ahead(config, keys, old(pos));
              if ahead == [] then k == None && Ahead(config, keys, pos) == []
              else k == Some(ahead[0]) && Ahead(config, keys, pos) == ahead[1..]
    {
      ghost var before := pos;
      if config.direction.Backwards? {
        if pos >= 0 { pos := pos - 1; }
      } else {
        if pos < |keys| { pos := pos + 1; }
      }
      AheadStep(config, keys, before, pos);
      k := if 0 <= pos < |keys| then Some(keys[pos]) else None;
    }
  }

  lemma AheadStep(cfg: Config, keys: seq<Key>, pos: int, next: int)
    requires -1 <= pos <= |keys| && -1 <= next <= |keys|
    requires next == if cfg.direction.Backwards? then (if pos >= 0 then pos - 1 else pos)
                     else if pos < |keys| then pos + 1 else pos
    ensures var ahead := Ahead(cfg, keys, pos);
            if ahead == [] then !(0 <= next < |keys|) && Ahead(cfg, keys, next) == []
            else 0 <= next < |keys| && keys[next] == ahead[0] && Ahead(cfg, keys, next) == ahead[1..]
    ensures MissingIsFinal(cfg, Ahead(cfg, keys, pos)) ==> MissingIsFinal(cfg, Ahead(cfg, keys, next))
  {
    var ahead := Ahead(cfg, keys, pos);
    if ahead != [] {
      assert Ahead(cfg, keys, next) == ahead[1..];
      if MissingIsFinal(cfg, ahead) { MissingIsFinalTail(cfg, ahead); }
    }
  }

  lemma MissingIsFinalTail(cfg: Config, s: seq<Key>)
    requires MissingIsFinal(cfg, s) && s != []
    ensures MissingIsFinal(cfg, s[1..])
  {
    forall i, j | 0 <= i < j < |s[1..]| && Missing(cfg, s[1..][i])
      ensures Missing(cfg, s[1..][j])
    {
      assert s[1..][i] == s[i + 1] && s[1..][j] == s[j + 1];
    }
  }

  lemma CutStep(limit: Option<int>, seen: nat, s: seq<Key>)
    requires limit.Some? ==> seen < limit.value
    ensures s == [] ==> Cut(limit, seen, s) == []
    ensures s != [] ==> Cut(limit, seen, s) == [s[0]] + Cut(limit, seen + 1, s[1..])
  {
  }

  lemma {:induction false} RunWithoutPrefix(cfg: Config, s: seq<Key>)
    requires cfg.prefix.None?
    ensures Run(cfg, s) == s
  {
    if s == [] {
    } else {
      RunWithoutPrefix(cfg, s[1..]);
      assert s == [s[0]] + s[1..];
    }
  }

  /** At and after the seek the contiguous run is the whole filter. */
  lemma {:induction false} RunIsMatching(keys: seq<Key>, seek: Key, cfg: Config)
    requires forall i :: 0 <= i < |keys| ==> AtMost(seek, keys[i])
    requires MissingIsFinal(cfg, keys)
    ensures Run(cfg, keys) == Matching(keys, seek, cfg)
  {
    if keys == [] {
    } else {
      if Missing(cfg, keys[0]) {
        assert forall j :: 1 <= j < |keys| ==> Missing(cfg, keys[0]) && Missing(cfg, keys[j]);
        SelectNone(Wanted(seek, cfg), keys);
      } else {
        RunIsMatching(keys[1..], seek, cfg);
      }
    }
  }

  lemma MissingFinalAfterSeek(keys: seq<Key>, seek: Key, cfg: Config)
    requires Ascending(keys) && !Missing(cfg, seek)
    requires forall i :: 0 <= i < |keys| ==> AtMost(seek, keys[i])
    ensures MissingIsFinal(cfg, keys)
  {
    forall i, j | 0 <= i < j < |keys| && Missing(cfg, keys[i])
      ensures Missing(cfg, keys[j])
    {
      if !Missing(cfg, keys[j]) {
        PrefixContiguous(seek, keys[i], keys[j], cfg.prefix.value);
      }
    }
  }

  lemma MissingFinalBeforeSeek(keys: seq<Key>, seek: Key, cfg: Config)
    requires Ascending(keys) && !Missing(cfg, seek)
    requires forall i :: 0 <= i < |keys| ==> !AtMost(seek, keys[i])
    ensures MissingIsFinal(cfg, Reverse(keys))
  {
    var s := Reverse(keys);
    forall i, j | 0 <= i < j < |s| && Missing(cfg, s[i])
      ensures Missing(cfg, s[j])
    {
      if !Missing(cfg, s[j]) {
        LessTotal(s[i], seek);
        PrefixContiguous(s[j], s[i], seek, cfg.prefix.value);
      }
    }
  }

  lemma AscendingSuffixAtLeast(keys: seq<Key>, seek: Key, p: nat)
    requires Ascending(keys) && p < |keys| && AtMost(seek, keys[p])
    ensures forall i :: p <= i < |keys| ==> AtMost(seek, keys[i])
  {
    forall i | p <= i < |keys|
      ensures AtMost(seek, keys[i])
    {
      if i > p && seek != keys[p] { LessTransitive(seek, keys[p], keys[i]); }
    }
  }

  /** Bucket.ForwardCursor; null stands for the missing-prefix error. */
  method ForwardCursor(keys: seq<Key>, seek: Key, cfg: Config) returns (c: Cursor?)
    requires BucketKeys(keys)
    ensures c == null <==>
            Missing(cfg, if seek == [] && cfg.direction.Backwards? && keys != [] then keys[|keys| - 1] else seek)
    ensures c != null ==> fresh(c) && c.Valid() && !c.closed && c.keys == keys && c.config == cfg
    ensures c != null && cfg.direction.Forwards? ==>
              c.Remaining() == Cut(cfg.limit, 0, Skip(cfg.skipFirst, Matching(keys, seek, cfg)))
    ensures c != null && cfg.direction.Backwards? && seek == [] && cfg.prefix.None? ==>
              c.Remaining() == Cut(cfg.limit, 0, Skip(cfg.skipFirst, Reverse(keys)))
  {
    var from := if seek == [] && cfg.direction.Backwards? && keys != [] then keys[|keys| - 1] else seek;
    var pos := SeekPos(keys, from);
    if Missing(cfg, from) { return null; }
    var key := if pos < |keys| && !cfg.skipFirst then Some(keys[pos]) else None;
    c := new Cursor.At(keys, cfg, pos, key);
    SeekMissingFinal(keys, from, cfg, pos);
    if cfg.direction.Forwards? {
      SeekForwards(keys, seek, cfg, pos);
    } else if seek == [] && cfg.prefix.None? {
      SeekLast(keys, from, cfg, pos);
    }
  }

  lemma SeekMissingFinal(keys: seq<Key>, from: Key, cfg: Config, pos: nat)
    requires BucketKeys(keys) && !Missing(cfg, from) && pos == SeekPos(keys, from)
    ensures pos < |keys| ==> MissingIsFinal(cfg, keys[pos + 1..])
    ensures pos < |keys| ==> MissingIsFinal(cfg, keys[pos..])
    ensures MissingIsFinal(cfg, Reverse(keys[..pos]))
  {
    if pos < |keys| {
      AscendingSuffixAtLeast(keys, from, pos);
      MissingFinalAfterSeek(keys[pos..], from, cfg);
      MissingFinalAfterSeek(keys[pos + 1..], from, cfg);
    }
    MissingFinalBeforeSeek(keys[..pos], from, cfg);
  }

  lemma SeekForwards(keys: seq<Key>, seek: Key, cfg: Config, pos: nat)
    requires BucketKeys(keys) && !Missing(cfg, seek) && pos == SeekPos(keys, seek)
    ensures pos == |keys| ==> Matching(keys, seek, cfg) == []
    ensures pos < |keys| && Missing(cfg, keys[pos]) ==>
              Run(cfg, keys[pos + 1..]) == [] && Matching(keys, seek, cfg) == []
    ensures pos < |keys| && !Missing(cfg, keys[pos]) ==>
              Matching(keys, seek, cfg) == [keys[pos]] + Run(cfg, keys[pos + 1..])
  {
    SeekMatching(keys, seek, cfg, pos);
    if pos < |keys| {
      SeekMissingFinal(keys, seek, cfg, pos);
      var s := keys[pos..];
      assert s[1..] == keys[pos + 1..] && s[0] == keys[pos];
      assert Missing(cfg, s[0]) && 1 < |s| ==> Missing(cfg, s[1]);
    }
  }

  lemma SeekMatching(keys: seq<Key>, seek: Key, cfg: Config, pos: nat)
    requires BucketKeys(keys) && !Missing(cfg, seek) && pos == SeekPos(keys, seek)
    ensures Matching(keys, seek, cfg) == Run(cfg, keys[pos..])
  {
    MatchingBelowSeek(keys, seek, cfg, pos);
    MatchingFromSeek(keys, seek, cfg, pos);
    MatchingParts(keys, seek, cfg, pos);
  }

  lemma MatchingParts(keys: seq<Key>, seek: Key, cfg: Config, pos: nat)
    requires pos <= |keys|
    ensures Matching(keys[..pos], seek, cfg) == [] ==>
              Matching(keys, seek, cfg) == Matching(keys[pos..], seek, cfg)
  {
    assert keys[..pos] + keys[pos..] == keys;
    SelectAppend(Wanted(seek, cfg), keys[..pos], keys[pos..]);
  }

  lemma MatchingBelowSeek(keys: seq<Key>, seek: Key, cfg: Config, pos: nat)
    requires BucketKeys(keys) && pos == SeekPos(keys, seek)
    ensures Matching(keys[..pos], seek, cfg) == []
  {
    SelectNone(Wanted(seek, cfg), keys[..pos]);
  }

  lemma MatchingFromSeek(keys: seq<Key>, seek: Key, cfg: Config, pos: nat)
    requires BucketKeys(keys) && !Missing(cfg, seek) && pos == SeekPos(keys, seek)
    ensures Matching(keys[pos..], seek, cfg) == Run(cfg, keys[pos..])
  {
    if pos < |keys| {
      AscendingSuffixAtLeast(keys, seek, pos);
      SeekMissingFinal(keys, seek, cfg, pos);
      RunIsMatching(keys[pos..], seek, cfg);
    }
  }

  lemma SeekLast(keys: seq<Key>, from: Key, cfg: Config, pos: nat)
    requires BucketKeys(keys) && cfg.prefix.None? && pos == SeekPos(keys, from)
    requires keys != [] ==> from == keys[|keys| - 1]
    requires keys == [] ==> from == []
    ensures keys != [] ==> pos == |keys| - 1 && Reverse(keys) == [keys[pos]] + Reverse(keys[..pos])
    ensures Run(cfg, Reverse(keys[..pos])) == Reverse(keys[..pos])
  {
    if keys != [] {
      if pos < |keys| - 1 {
        LessTransitive(keys[pos], from, keys[pos]);
        LessIrreflexive(keys[pos]);
      }
      assert AtMost(from, keys[|keys| - 1]);
    }
    RunWithoutPrefix(cfg, Reverse(keys[..pos]));
  }

  /** Reading one more key moves it from what remains to what was read. */
  lemma ReadStep(read: seq<Key>, rest: seq<Key>)
    ensures rest == [] ==> read + rest == read
    ensures rest != [] ==> read + rest == read + [rest[0]] + rest[1..]
  {
  }

  /** A limit leaves that many keys from the front, and a skip drops the first. */
  lemma LimitAndSkip(limit: int, s: seq<Key>)
    ensures Cut(None, 0, s) == s
    ensures Cut(Some(limit), 0, s) == if limit <= 0 then [] else if limit < |s| then s[..limit] else s
    ensures Skip(false, s) == s && (s != [] ==> [s[0]] + Skip(true, s) == s)
  {
  }

  /** How a visit ends: go on, stop, or an error of the visitor or of the context. */
  datatype Visit = Continue | Stop | VisitFailed | Cancelled

  /** How many of these keys are visited: up to the first that does not say go on. */
  function Visits(visit: Key -> Visit, s: seq<Key>): (n: nat)
    ensures n <= |s| && (n < |s| ==> n > 0)
    ensures forall i :: 0 <= i < n - 1 ==> visit(s[i]).Continue?
    ensures n < |s| ==> !visit(s[n - 1]).Continue?
  {
    if s == [] then 0
    else if !visit(s[0]).Continue? then 1
    else 1 + Visits(visit, s[1..])
  }

  /** WalkCursor: visits what remains until told to stop, and closes the cursor. */
  method WalkCursor(c: Cursor, visit: Key -> Visit) returns (visited: seq<Key>, last: Visit)
    requires c.Valid()
    modifies c
    ensures c.Valid() && c.closed
    ensures var rest := old(c.Remaining());
            visited == rest[..Visits(visit, rest)]
    ensures last == if visited == [] then Continue else visit(visited[|visited| - 1])
  {
    ghost var rest, n := c.Remaining(), 0;
    visited, last := [], Continue;
    var k := Advance(c, rest, 0);
    while k.Some?
      invariant c.Valid() && 0 <= n <= |rest| && visited == rest[..n] && last == Continue
      invariant AllContinue(visit, rest, n)
      invariant k == if n < |rest| then Some(rest[n]) else None
      invariant n < |rest| ==> c.Remaining() == rest[n + 1..]
      decreases |rest| - n
    {
      TakeOne(rest, n);
      visited, last := visited + [k.value], visit(k.value);
      n := n + 1;
      if !last.Continue? { break; }
      k := Advance(c, rest, n);
    }
    VisitsUpTo(visit, rest, n);
    c.Close();
  }

  ghost predicate AllContinue(visit: Key -> Visit, s: seq<Key>, n: int)
    requires n <= |s|
  {
    forall i :: 0 <= i < n ==> visit(s[i]).Continue?
  }

  lemma TakeOne(s: seq<Key>, n: nat)
    requires n < |s|
    ensures s[..n + 1] == s[..n] + [s[n]]
  {
  }

  /** Next, of a cursor that has handed out the first n keys. */
  method Advance(c: Cursor, ghost rest: seq<Key>, ghost n: nat) returns (k: Option<Key>)
    requires c.Valid() && n <= |rest| && c.Remaining() == rest[n..]
    modifies c
    ensures c.Valid() && k == if n < |rest| then Some(rest[n]) else None
    ensures n < |rest| ==> c.Remaining() == rest[n + 1..]
  {
    k := c.Next();
  }

  lemma {:induction false} VisitsUpTo(visit: Key -> Visit, s: seq<Key>, n: nat)
    requires n <= |s| && AllContinue(visit, s, n - 1)
    requires if n == 0 then s == [] else n < |s| ==> !visit(s[n - 1]).Continue?
    ensures Visits(visit, s) == n
  {
    if n <= 1 {
    } else {
      VisitsUpTo(visit, s[1..], n - 1);
    }
  }

  /** Reads a cursor to its end. */
  method Drain(c: Cursor) returns (ks: seq<Key>)
    requires c.Valid()
    modifies c
    ensures c.Valid() && c.Remaining() == []
    ensures ks == old(c.Remaining())
  {
    ghost var run := c.Remaining();
    var last;
    ks, last := WalkCursor(c, _ => Continue);
    VisitsUpTo(_ => Continue, run, |run|);
  }

  /** A prefix seek enumerates exactly the keys of the bucket that have the prefix. */
  lemma PrefixEnumeration(keys: seq<Key>, p: Key)
    requires BucketKeys(keys)
    ensures Ascending(Matching(keys, p, WithPrefix(p)))
    ensures forall k :: k in Matching(keys, p, WithPrefix(p)) <==> k in keys && HasPrefix(k, p)
  {
    SelectAscending(Wanted(p, WithPrefix(p)), keys);
    forall k | k in keys && HasPrefix(k, p)
      ensures AtMost(p, k)
    {
      PrefixAtMost(k, p);
    }
  }

  /** The scan without seek or prefix enumerates the whole bucket. */
  lemma MatchingAll(keys: seq<Key>)
    ensures Matching(keys, [], PLAIN) == keys
  {
    SelectAll(Wanted([], PLAIN), keys);
  }
}
