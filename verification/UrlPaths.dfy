/** The URL matcher of the logging middleware: cleaned paths compared segment by
    segment, a pattern segment that starts with a colon standing for any one. */
module UrlPaths {
  import opened Wrappers

  predicate NoSlash(s: string) {
    '/' !in s
  }

  /** A segment that cleaning leaves alone. */
  predicate Normal(seg: string) {
    seg != "" && seg != "." && seg != ".." && NoSlash(seg)
  }

  predicate AllNormal(segs: seq<string>) {
    forall i :: 0 <= i < |segs| ==> Normal(segs[i])
  }

  /** The pieces between slashes. */
  function Pieces(s: string): (r: seq<string>)
    ensures r != [] && forall i :: 0 <= i < |r| ==> NoSlash(r[i])
  {
    if s == "" then [""]
    else if s[0] == '/' then [""] + Pieces(s[1..])
    else
      var rest := Pieces(s[1..]);
      [[s[0]] + rest[0]] + rest[1..]
  }

  /** path.Clean on pieces below the root: empty and dot pieces go, a double dot takes
      back the piece before it, if any. */
  function Resolve(pieces: seq<string>, stack: seq<string>): (r: seq<string>)
    requires forall i :: 0 <= i < |pieces| ==> NoSlash(pieces[i])
    requires AllNormal(stack)
    ensures AllNormal(r)
    decreases |pieces|
  {
    if pieces == [] then stack
    else if pieces[0] == "" || pieces[0] == "." then Resolve(pieces[1..], stack)
    else if pieces[0] == ".." then Resolve(pieces[1..], if stack == [] then [] else stack[..|stack| - 1])
    else Resolve(pieces[1..], stack + [pieces[0]])
  }

  /** The segments of a cleaned path. */
  function Segments(p: string): (r: seq<string>)
    ensures AllNormal(r)
  {
    Resolve(Pieces(p), [])
  }

  function Joined(segs: seq<string>): string {
    if segs == [] then "" else "/" + segs[0] + Joined(segs[1..])
  }

  /** path.Clean("/" + p). */
  function Clean(p: string): string {
    var segs := Segments(p);
    if segs == [] then "/" else Joined(segs)
  }

  lemma {:induction false} PiecesOfSegment(seg: string, rest: string)
    requires NoSlash(seg) && (rest == "" || rest[0] == '/')
    ensures Pieces(seg + rest) == [seg] + (if rest == "" then [] else Pieces(rest[1..]))
  {
    if seg == "" {
      assert seg + rest == rest;
    } else {
      assert (seg + rest)[1..] == seg[1..] + rest;
      PiecesOfSegment(seg[1..], rest);
      assert seg == [seg[0]] + seg[1..];
    }
  }

  /** Splitting a joined path gives an empty piece and the segments. */
  lemma {:induction false} PiecesOfJoined(segs: seq<string>)
    requires AllNormal(segs)
    ensures Pieces(Joined(segs)) == [""] + segs
  {
    if segs == [] {
      assert [""] + segs == [""];
    } else {
      var rest := Joined(segs[1..]);
      PiecesOfJoined(segs[1..]);
      var s := Joined(segs);
      assert s == "/" + (segs[0] + rest);
      assert s[0] == '/' && s[1..] == segs[0] + rest;
      PiecesOfSegment(segs[0], rest);
      if rest != "" {
        assert Pieces(rest) == [""] + Pieces(rest[1..]);
        assert ([""] + Pieces(rest[1..]))[1..] == Pieces(rest[1..]) && ([""] + segs[1..])[1..] == segs[1..];
      }
      assert segs == [segs[0]] + segs[1..];
    }
  }

  lemma {:induction false} ResolveNormal(segs: seq<string>, stack: seq<string>)
    requires AllNormal(segs) && AllNormal(stack)
    ensures Resolve(segs, stack) == stack + segs
    decreases |segs|
  {
    if segs == [] {
    } else {
      ResolveNormal(segs[1..], stack + [segs[0]]);
      assert stack + [segs[0]] + segs[1..] == stack + segs;
    }
  }

  /** Cleaning a cleaned path changes nothing. */
  lemma SegmentsOfJoined(segs: seq<string>)
    requires AllNormal(segs)
    ensures Segments(Joined(segs)) == segs
  {
    PiecesOfJoined(segs);
    var pieces := [""] + segs;
    assert pieces[1..] == segs;
    ResolveNormal(segs, []);
  }

  lemma SegmentsOfClean(p: string)
    ensures Segments(Clean(p)) == Segments(p)
  {
    if Segments(p) == [] {
      assert Pieces("/") == ["", ""] by { assert "/"[1..] == ""; }
      assert ["", ""][1..] == [""];
      assert Resolve(["", ""], []) == Resolve([""], []) == [];
    } else {
      SegmentsOfJoined(Segments(p));
    }
  }

  /** shiftPath: the first segment and the rest of the cleaned path. */
  method ShiftPath(p: string) returns (head: string, tail: string)
    ensures head == if Segments(p) == [] then "" else Segments(p)[0]
    ensures Segments(tail) == if Segments(p) == [] then [] else Segments(p)[1..]
  {
    var clean := Clean(p);
    ghost var segs := Segments(p);
    var i := 1;
    while i < |clean| && clean[i] != '/'
      invariant 1 <= i <= |clean|
      invariant NoSlash(clean[1..i])
    {
      i := i + 1;
    }
    if i == |clean| {
      head, tail := clean[1..], "/";
    } else {
      head, tail := clean[1..i], clean[i..];
    }
    assert Segments("/") == [] by { SegmentsOfRoot(); }
    if segs != [] {
      FirstSegment(segs, clean, i);
      SegmentsOfJoined(segs[1..]);
    }
  }

  lemma SegmentsOfRoot()
    ensures Segments("/") == []
  {
    assert "/"[1..] == "" && Pieces("") == [""];
    assert Pieces("/") == [""] + [""];
    assert ([""] + [""])[1..] == [""];
    assert [""][1..] == [];
  }

  /** The first slash after the leading one is where the first segment ends. */
  lemma SegmentEnd(seg: string, rest: string, clean: string, i: nat)
    requires clean == "/" + seg + rest && NoSlash(seg) && (rest != "" ==> rest[0] == '/')
    requires 1 <= i <= |clean| && NoSlash(clean[1..i]) && (i < |clean| ==> clean[i] == '/')
    ensures i == |seg| + 1
  {
    assert forall m :: 1 <= m <= |seg| ==> clean[m] == seg[m - 1];
    assert forall m :: 1 <= m < i ==> clean[m] == clean[1..i][m - 1];
    assert rest != "" ==> clean[|seg| + 1] == '/';
  }

  lemma FirstSegment(segs: seq<string>, clean: string, i: nat)
    requires segs != [] && AllNormal(segs) && clean == Joined(segs)
    requires 1 <= i <= |clean| && NoSlash(clean[1..i]) && (i < |clean| ==> clean[i] == '/')
    ensures clean[1..i] == segs[0] && clean[i..] == Joined(segs[1..])
    ensures i == |clean| <==> |segs| == 1
  {
    var rest := Joined(segs[1..]);
    assert rest == "" <==> |segs| == 1;
    assert rest != "" ==> rest[0] == '/';
    assert clean == "/" + segs[0] + rest;
    SegmentEnd(segs[0], rest, clean, i);
  }

  predicate PartsMatch(raw: string, source: string) {
    raw == source || (Parameter(source) && raw != "")
  }

  predicate Parameter(seg: string) {
    seg != "" && seg[0] == ':'
  }

  /** The meaning of a match: as many segments, each equal or taken by a parameter. */
  predicate Matches(raw: seq<string>, source: seq<string>) {
    |raw| == |source| && forall i :: 0 <= i < |raw| ==> raw[i] == source[i] || Parameter(source[i])
  }

  /** A path of which `head` is the segment at `n`, or none, and `tail` has the later ones. */
  ghost predicate At(segs: seq<string>, n: nat, head: string, tail: string) {
    && n <= |segs| && head == (if n == |segs| then "" else segs[n])
    && Segments(tail) == (if n == |segs| then [] else segs[n + 1..])
  }

  /** Moving on to the next segment. */
  method Shift(ghost segs: seq<string>, ghost n: nat, ghost head: string, tail: string)
    returns (nextHead: string, nextTail: string)
    requires At(segs, n, head, tail) && n < |segs|
    ensures At(segs, n + 1, nextHead, nextTail)
  {
    nextHead, nextTail := ShiftPath(tail);
  }

  /** compareRawSourceURLs. */
  method Compare(raw: string, source: string) returns (ok: bool)
    ensures ok <==> Matches(Segments(raw), Segments(source))
  {
    var sourceHead, sourceTail := ShiftPath(source);
    var rawHead, rawTail := ShiftPath(raw);
    ok := CompareFrom(Segments(raw), Segments(source), rawHead, rawTail, sourceHead, sourceTail);
  }

  /** The loop, from the first segments on. */
  method CompareFrom(ghost rs: seq<string>, ghost ss: seq<string>, rh: string, rt: string, sh: string, st: string)
    returns (ok: bool)
    requires AllNormal(rs) && AllNormal(ss) && At(rs, 0, rh, rt) && At(ss, 0, sh, st)
    ensures ok <==> Matches(rs, ss)
  {
    ghost var n := 0;
    var rawHead, rawTail, sourceHead, sourceTail := rh, rt, sh, st;
    while rawHead != ""
      invariant At(rs, n, rawHead, rawTail) && At(ss, n, sourceHead, sourceTail)
      invariant forall i :: 0 <= i < n ==> rs[i] == ss[i] || Parameter(ss[i])
      decreases |rs| - n
    {
      PartsMatchMeaning(rs, ss, n);
      if !PartsMatch(rawHead, sourceHead) {
        Mismatch(rs, ss, n);
        return false;
      }
      rawHead, rawTail := Shift(rs, n, rawHead, rawTail);
      sourceHead, sourceTail := Shift(ss, n, sourceHead, sourceTail);
      n := n + 1;
    }
    HeadsMissing(rs, n);
    HeadsMissing(ss, n);
    return sourceHead == "";
  }

  lemma HeadsMissing(segs: seq<string>, n: nat)
    requires AllNormal(segs)
    ensures n < |segs| ==> segs[n] != ""
  {
  }

  lemma Mismatch(rs: seq<string>, ss: seq<string>, n: nat)
    requires n < |rs| && (n < |ss| ==> rs[n] != ss[n] && !Parameter(ss[n]))
    ensures !Matches(rs, ss)
  {
  }

  lemma PartsMatchMeaning(rs: seq<string>, ss: seq<string>, n: nat)
    requires AllNormal(rs) && AllNormal(ss) && n < |rs| && n <= |ss|
    ensures n == |ss| ==> !PartsMatch(rs[n], "")
    ensures n < |ss| ==> (PartsMatch(rs[n], ss[n]) <==> rs[n] == ss[n] || Parameter(ss[n]))
  {
  }

  /** Whether an endpoint pattern matches a path. */
  predicate Covers(pattern: string, raw: string) {
    Matches(Segments(raw), Segments(pattern))
  }

  /** The entry mapURLPath answers with when it ranges over the table in this order. */
  function Answer(raw: string, order: seq<string>): Option<string> {
    if raw in order then Some(raw) else FirstCover(raw, order)
  }

  function FirstCover(raw: string, order: seq<string>): (r: Option<string>)
    ensures r.Some? ==> r.value in order && Covers(r.value, raw)
    ensures r.None? ==> forall e :: e in order ==> !Covers(e, raw)
  {
    if order == [] then None
    else if Covers(order[0], raw) then Some(order[0])
    else FirstCover(raw, order[1..])
  }

  /** mapURLPath: an exact entry, else the first pattern that matches. */
  method MapUrlPath(raw: string, order: seq<string>) returns (entry: Option<string>)
    ensures entry == Answer(raw, order)
    ensures entry.Some? <==> exists e :: e in order && Covers(e, raw)
  {
    if raw in order {
      assert Covers(raw, raw);
      return Some(raw);
    }
    var i := 0;
    while i < |order|
      invariant 0 <= i <= |order|
      invariant FirstCover(raw, order) == FirstCover(raw, order[i..])
    {
      var ok := Compare(raw, order[i]);
      if ok { return Some(order[i]); }
      i := i + 1;
    }
    return None;
  }

  ghost predicate Reordered(o: seq<string>, order: seq<string>) {
    multiset(o) == multiset(order)
  }

  lemma SameEntries(o: seq<string>, order: seq<string>, e: string)
    requires Reordered(o, order)
    ensures e in o <==> e in order
  {
    assert e in multiset(o) <==> e in multiset(order);
  }

  /** No two entries match. */
  ghost predicate OneCover(raw: string, order: seq<string>) {
    forall a, b :: a in order && b in order && Covers(a, raw) && Covers(b, raw) ==> a == b
  }

  lemma AnswerSame(raw: string, o: seq<string>, order: seq<string>)
    requires Reordered(o, order) && (raw in order || OneCover(raw, order))
    ensures Answer(raw, o) == Answer(raw, order)
  {
    SameEntries(o, order, raw);
    var x, y := FirstCover(raw, o), FirstCover(raw, order);
    if x.Some? { SameEntries(o, order, x.value); }
    if y.Some? { SameEntries(o, order, y.value); }
  }

  /** The answer does not depend on the order exactly when there is an exact entry or no
      two patterns match. */
  lemma AnswerFixedIff(raw: string, order: seq<string>)
    ensures (forall o :: Reordered(o, order) ==> Answer(raw, o) == Answer(raw, order)) <==>
            raw in order || OneCover(raw, order)
  {
    if raw in order || OneCover(raw, order) {
      forall o | Reordered(o, order)
        ensures Answer(raw, o) == Answer(raw, order)
      {
        AnswerSame(raw, o, order);
      }
    } else {
      var a, b :| a in order && b in order && Covers(a, raw) && Covers(b, raw) && a != b;
      var oa := InFront(order, a);
      var ob := InFront(order, b);
      SameEntries(oa, order, raw);
      SameEntries(ob, order, raw);
      assert Answer(raw, oa) == Some(a) && Answer(raw, ob) == Some(b);
    }
  }

  lemma InFront(order: seq<string>, x: string) returns (o: seq<string>)
    requires x in order
    ensures Reordered(o, order) && o != [] && o[0] == x
  {
    var i :| 0 <= i < |order| && order[i] == x;
    o := [x] + order[..i] + order[i + 1..];
    assert order == order[..i] + [x] + order[i + 1..];
  }

  // ---------------------------------------------------------------- one segment more

  lemma {:induction false} PiecesAppend(a: string, b: string)
    ensures Pieces(a + "/" + b) == Pieces(a) + Pieces(b)
  {
    var s := a + "/" + b;
    if a == "" {
      assert s[0] == '/' && s[1..] == b;
    } else {
      assert s[0] == a[0] && s[1..] == a[1..] + "/" + b;
      PiecesAppend(a[1..], b);
      PiecesStep(a);
      PiecesStep(s);
      FrontPiece(a[0], Pieces(a[1..]), Pieces(b));
    }
  }

  function Longer(c: char, pieces: seq<string>): seq<string>
    requires pieces != []
  {
    if c == '/' then [""] + pieces else [[c] + pieces[0]] + pieces[1..]
  }

  lemma PiecesStep(s: string)
    requires s != ""
    ensures Pieces(s) == Longer(s[0], Pieces(s[1..]))
  {
  }

  lemma FrontPiece(c: char, xs: seq<string>, ys: seq<string>)
    requires xs != []
    ensures Longer(c, xs + ys) == Longer(c, xs) + ys
  {
    assert (xs + ys)[1..] == xs[1..] + ys;
  }

  lemma {:induction false} ResolveAppend(a: seq<string>, b: seq<string>, stack: seq<string>)
    requires (forall i :: 0 <= i < |a| ==> NoSlash(a[i])) && forall i :: 0 <= i < |b| ==> NoSlash(b[i])
    requires AllNormal(stack)
    ensures forall i :: 0 <= i < |a + b| ==> NoSlash((a + b)[i])
    ensures Resolve(a + b, stack) == Resolve(b, Resolve(a, stack))
    decreases |a|
  {
    if a == [] {
      assert a + b == b;
    } else {
      assert (a + b)[1..] == a[1..] + b;
      if a[0] == "" || a[0] == "." {
        ResolveAppend(a[1..], b, stack);
      } else if a[0] == ".." {
        ResolveAppend(a[1..], b, if stack == [] then [] else stack[..|stack| - 1]);
      } else {
        ResolveAppend(a[1..], b, stack + [a[0]]);
      }
    }
  }

  lemma {:induction false} OnePiece(s: string)
    requires NoSlash(s)
    ensures Pieces(s) == [s]
  {
    if s == "" {
    } else {
      OnePiece(s[1..]);
      assert s == [s[0]] + s[1..];
    }
  }

  /** Cleaning, one step at a time: nothing and a dot stay, a double dot takes the last
      segment back, anything else is a segment more. */
  lemma SegmentsAppend(p: string, step: string)
    requires NoSlash(step)
    ensures Segments(p + "/" + step) ==
            if step == "" || step == "." then Segments(p)
            else if step == ".." then (if Segments(p) == [] then [] else Segments(p)[..|Segments(p)| - 1])
            else Segments(p) + [step]
  {
    PiecesAppend(p, step);
    OnePiece(step);
    ResolveAppend(Pieces(p), [step], []);
    assert [step][1..] == [];
  }

  /** A pattern with one segment more covers a path with one segment more exactly when the
      shorter ones match and the segment is equal or starts with a colon. */
  lemma CoversOneMore(pattern: string, raw: string, x: string, seg: string)
    requires Normal(x) && Normal(seg)
    ensures Covers(pattern + "/" + x, raw + "/" + seg) <==> Covers(pattern, raw) && (x == seg || x[0] == ':')
    ensures Covers("", "")
  {
    SegmentsAppend(pattern, x);
    SegmentsAppend(raw, seg);
    MatchesOneMore(Segments(raw), Segments(pattern), seg, x);
    assert Pieces("") == [""] && [""][1..] == [];
  }

  lemma MatchesOneMore(raw: seq<string>, source: seq<string>, seg: string, x: string)
    requires x != ""
    ensures Matches(raw + [seg], source + [x]) <==> Matches(raw, source) && (x == seg || x[0] == ':')
  {
    if Matches(raw + [seg], source + [x]) {
      var n := |raw|;
      assert (raw + [seg])[n] == seg && (source + [x])[n] == x;
      assert forall i :: 0 <= i < n ==> (raw + [seg])[i] == raw[i] && (source + [x])[i] == source[i];
    }
  }
}
