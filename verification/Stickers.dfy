/** Annotation stickers, stored as a list of `key=value` strings. */
module Stickers {
  import opened Wrappers

  /** strings.Cut at the first equals sign. */
  function CutAtEquals(s: string): (r: Option<(string, string)>)
    ensures r.Some? ==> '=' !in r.value.0 && s == r.value.0 + ['='] + r.value.1
    ensures r.None? ==> '=' !in s
  {
    if s == "" then None
    else if s[0] == '=' then Some(("", s[1..]))
    else
      var rest := CutAtEquals(s[1..]);
      if rest.None? then None else Some(([s[0]] + rest.value.0, rest.value.1))
  }

  lemma {:induction false} CutOfJoined(k: string, v: string)
    requires '=' !in k
    ensures CutAtEquals(k + ['='] + v) == Some((k, v))
  {
    var s := k + ['='] + v;
    if k == "" {
      assert s[1..] == v;
    } else {
      assert s[1..] == k[1..] + ['='] + v;
      CutOfJoined(k[1..], v);
      assert k == [k[0]] + k[1..];
    }
  }

  /** stickerSliceToMap; None is the first entry without an equals sign. */
  function ToMap(stickers: seq<string>): (r: Option<map<string, string>>)
    ensures r.Some? ==> forall k :: k in r.value ==> '=' !in k
  {
    if stickers == [] then Some(map[])
    else
      var init := ToMap(stickers[..|stickers| - 1]);
      var cut := CutAtEquals(stickers[|stickers| - 1]);
      if init.None? || cut.None? then None else Some(init.value[cut.value.0 := cut.value.1])
  }

  method StickerSliceToMap(stickers: seq<string>) returns (r: Option<map<string, string>>)
    ensures r == ToMap(stickers)
    ensures r.None? <==> exists s :: s in stickers && '=' !in s
    ensures r.Some? ==> forall k, v :: Wins(stickers, k, v) <==> k in r.value && r.value[k] == v
  {
    ToMapFailsIff(stickers);
    if ToMap(stickers).Some? { LaterEntriesWin(stickers); }
    var m: map<string, string> := map[];
    for i := 0 to |stickers|
      invariant ToMap(stickers[..i]) == Some(m)
    {
      assert stickers[..i + 1][..i] == stickers[..i];
      var cut := CutAtEquals(stickers[i]);
      if cut.None? {
        Malformed(stickers, i);
        return None;
      }
      m := m[cut.value.0 := cut.value.1];
    }
    assert stickers[..|stickers|] == stickers;
    return Some(m);
  }

  /** The last entry with this key is at `i` and has this value. */
  ghost predicate LastEntry(stickers: seq<string>, k: string, v: string, i: int) {
    && 0 <= i < |stickers| && CutAtEquals(stickers[i]) == Some((k, v))
    && forall j :: i < j < |stickers| ==> !HasKey(stickers[j], k)
  }

  ghost predicate Wins(stickers: seq<string>, k: string, v: string) {
    exists i :: LastEntry(stickers, k, v, i)
  }

  predicate HasKey(sticker: string, k: string) {
    CutAtEquals(sticker).Some? && CutAtEquals(sticker).value.0 == k
  }

  lemma {:induction false} ToMapFailsIff(stickers: seq<string>)
    ensures ToMap(stickers).None? <==> exists s :: s in stickers && '=' !in s
    decreases |stickers|
  {
    if stickers == [] {
    } else {
      var init, last := stickers[..|stickers| - 1], stickers[|stickers| - 1];
      ToMapFailsIff(init);
      assert stickers == init + [last];
      assert CutAtEquals(last).None? <==> '=' !in last by {
        if CutAtEquals(last).Some? { assert last[|CutAtEquals(last).value.0|] == '='; }
      }
    }
  }

  /** A key maps to a value exactly when its last entry gives that value. */
  lemma {:induction false} LaterEntriesWin(stickers: seq<string>)
    requires ToMap(stickers).Some?
    ensures var m := ToMap(stickers).value;
            forall k, v :: Wins(stickers, k, v) <==> k in m && m[k] == v
    decreases |stickers|
  {
    if stickers == [] {
    } else {
      LaterEntriesWin(stickers[..|stickers| - 1]);
      var m := ToMap(stickers).value;
      forall k, v
        ensures Wins(stickers, k, v) <==> k in m && m[k] == v
      {
        WinsStep(stickers, k, v);
      }
    }
  }

  lemma WinsStep(stickers: seq<string>, k: string, v: string)
    requires stickers != []
    ensures var init, last := stickers[..|stickers| - 1], stickers[|stickers| - 1];
            Wins(stickers, k, v) <==> if HasKey(last, k) then CutAtEquals(last).value.1 == v else Wins(init, k, v)
  {
    var n := |stickers| - 1;
    if HasKey(stickers[n], k) {
      if CutAtEquals(stickers[n]).value.1 == v { assert LastEntry(stickers, k, v, n); }
    } else {
      if Wins(stickers, k, v) {
        var i :| LastEntry(stickers, k, v, i);
        assert LastEntry(stickers[..n], k, v, i);
      }
      if Wins(stickers[..n], k, v) {
        var i :| LastEntry(stickers[..n], k, v, i);
        assert LastEntry(stickers, k, v, i);
      }
    }
  }

  lemma {:induction false} Malformed(stickers: seq<string>, i: nat)
    requires i < |stickers| && CutAtEquals(stickers[i]).None?
    ensures ToMap(stickers).None?
    decreases |stickers|
  {
    if i < |stickers| - 1 { Malformed(stickers[..|stickers| - 1], i); }
  }

  /** An order in which Go may range over a map. */
  ghost predicate Ranges(m: map<string, string>, order: seq<string>) {
    && (forall i, j :: 0 <= i < j < |order| ==> order[i] != order[j])
    && (forall k :: k in order <==> k in m)
  }

  /** Value, for one iteration order. */
  method Value(m: map<string, string>, order: seq<string>) returns (stickers: seq<string>)
    requires Ranges(m, order)
    ensures stickers == Joined(m, order)
  {
    stickers := [];
    for i := 0 to |order|
      invariant stickers == Joined(m, order[..i])
    {
      assert order[i] in order;
      stickers := stickers + [order[i] + ['='] + m[order[i]]];
    }
    assert order[..|order|] == order;
  }

  function Joined(m: map<string, string>, order: seq<string>): (r: seq<string>)
    requires forall k :: k in order ==> k in m
    ensures |r| == |order| && forall i :: 0 <= i < |order| ==> r[i] == order[i] + ['='] + m[order[i]]
  {
    seq(|order|, i requires 0 <= i < |order| => order[i] + ['='] + m[order[i]])
  }

  /** Scan: an unreadable list leaves the stickers as they were, without an error. */
  function Scan(current: map<string, string>, stickers: seq<string>): map<string, string> {
    var m := ToMap(stickers);
    if m.None? then current else m.value
  }

  /** Reading replaces the stickers, unless an entry has no equals sign. */
  lemma ScanAnswers(current: map<string, string>, stickers: seq<string>)
    ensures (exists s :: s in stickers && '=' !in s) ==> Scan(current, stickers) == current
    ensures (forall s :: s in stickers ==> '=' in s) ==>
              forall k, v :: Wins(stickers, k, v) <==>
                k in Scan(current, stickers) && Scan(current, stickers)[k] == v
  {
    ToMapFailsIff(stickers);
    if ToMap(stickers).Some? { LaterEntriesWin(stickers); }
  }

  function Part(m: map<string, string>, order: seq<string>): map<string, string>
    requires forall k :: k in order ==> k in m
  {
    map k | k in order :: m[k]
  }

  lemma PartAppend(m: map<string, string>, init: seq<string>, last: string)
    requires last in m && forall k :: k in init ==> k in m
    ensures Part(m, init + [last]) == Part(m, init)[last := m[last]]
  {
  }

  lemma {:induction false} ToMapOfJoined(m: map<string, string>, order: seq<string>)
    requires forall k :: k in order ==> k in m && '=' !in k
    ensures ToMap(Joined(m, order)) == Some(Part(m, order))
    decreases |order|
  {
    if order == [] {
    } else {
      var init, last := order[..|order| - 1], order[|order| - 1];
      assert order == init + [last];
      var stickers := Joined(m, order);
      assert stickers[..|stickers| - 1] == Joined(m, init);
      ToMapOfJoined(m, init);
      CutOfJoined(last, m[last]);
      PartAppend(m, init, last);
    }
  }

  lemma {:induction false} JoinedReads(m: map<string, string>, order: seq<string>)
    requires forall k :: k in order ==> k in m
    ensures ToMap(Joined(m, order)).Some?
    decreases |order|
  {
    if order == [] {
    } else {
      var init, last := order[..|order| - 1], order[|order| - 1];
      var stickers := Joined(m, order);
      assert stickers[..|stickers| - 1] == Joined(m, init);
      JoinedReads(m, init);
      assert '=' in last + ['='] + m[last] by { assert (last + ['='] + m[last])[|last|] == '='; }
    }
  }

  /** An equals sign in a key moves to the value. */
  lemma EqualsInKeyMoves()
    ensures Scan(map[], Joined(map["a=b" := "c"], ["a=b"])) == map["a" := "b=c"]
  {
    var s := Joined(map["a=b" := "c"], ["a=b"]);
    assert "a=b" + ['='] + "c" == "a" + ['='] + "b=c";
    CutOfJoined("a", "b=c");
    assert map["a=b" := "c"]["a=b"] == "c" && s[0] == "a" + ['='] + "b=c";
    assert s[..0] == [] && ToMap([]) == Some(map[]);
  }

  /** Whatever order the map is ranged over in, reading back what was written gives the
      map again exactly when no key holds an equals sign. */
  lemma ScanUndoesValueIff(current: map<string, string>, m: map<string, string>, order: seq<string>)
    requires Ranges(m, order)
    ensures Scan(current, Joined(m, order)) == m <==> forall k :: k in m ==> '=' !in k
  {
    JoinedReads(m, order);
    if forall k :: k in m ==> '=' !in k {
      ToMapOfJoined(m, order);
      assert Part(m, order) == m;
    }
  }
}
