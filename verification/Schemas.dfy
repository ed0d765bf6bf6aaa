/** Measurement schemas: the columns of a measurement, sorted by name through an array
    of indices, and the rules validateColumns checks. */
module Schemas {
  import opened Wrappers
  import opened Bytes

  datatype Kind = Timestamp | Tag | Field | Other(code: int)

  datatype Column = Column(name: Key, kind: Kind, dataType: Option<nat>)

  datatype SchemaError = ColumnsMissing | BadName | TimeSemantic | TimestampDataType | TimestampName | TagDataType
                       | FieldDataType | MissingTime | MissingFields | DuplicateNames

  const TIME: Key := [116, 105, 109, 101]
  const UNDERSCORE: Byte := 95
  const DOUBLE_QUOTE: Byte := 34
  const SINGLE_QUOTE: Byte := 39

  /** `token` is models.CheckToken. */
  predicate NameValid(token: Key -> bool, name: Key) {
    && 0 < |name| <= 128 && token(name) && name[0] != UNDERSCORE
    && DOUBLE_QUOTE !in name && SINGLE_QUOTE !in name
  }

  // ---------------------------------------------------------------- index sort

  function Identity(n: nat): (r: seq<nat>)
    ensures |r| == n && forall i :: 0 <= i < n ==> r[i] == i
  {
    seq(n, i => i)
  }

  /** A permutation of the column indices. */
  ghost predicate Permutation(n: nat, idx: seq<nat>) {
    multiset(idx) == multiset(Identity(n))
  }

  lemma PermutationRange(n: nat, idx: seq<nat>)
    requires Permutation(n, idx)
    ensures |idx| == n
    ensures forall p :: 0 <= p < |idx| ==> idx[p] < n
    ensures forall i :: 0 <= i < n ==> i in idx
  {
    assert |multiset(idx)| == |multiset(Identity(n))|;
    forall p | 0 <= p < |idx|
      ensures idx[p] < n
    {
      assert idx[p] in multiset(idx);
      assert idx[p] in Identity(n);
    }
    forall i | 0 <= i < n
      ensures i in idx
    {
      assert Identity(n)[i] == i;
      assert i in multiset(Identity(n));
    }
  }

  /** Positions in order of name; equal names may stand either way round. */
  ghost predicate SortedBy(cols: seq<Column>, idx: seq<nat>) {
    && (forall p :: 0 <= p < |idx| ==> idx[p] < |cols|)
    && forall p, q :: 0 <= p < q < |idx| ==> AtMost(cols[idx[p]].name, cols[idx[q]].name)
  }

  /** columns.Less, on column indices. */
  function NameLess(cols: seq<Column>): (nat, nat) -> bool {
    (i: nat, j: nat) => i < |cols| && j < |cols| && Less(cols[i].name, cols[j].name)
  }

  /** What sort.Sort asks of Less, for indices below n. */
  ghost predicate Ordering(less: (nat, nat) -> bool, n: nat) {
    && (forall x: nat, y: nat :: x < n && y < n && less(x, y) ==> !less(y, x))
    && (forall x: nat, y: nat, z: nat :: x < n && y < n && z < n && !less(y, x) && !less(z, y) ==> !less(z, x))
  }

  ghost predicate Sorted(less: (nat, nat) -> bool, idx: seq<nat>) {
    forall p, q :: 0 <= p < q < |idx| ==> !less(idx[q], idx[p])
  }

  lemma NameLessOrders(cols: seq<Column>)
    ensures Ordering(NameLess(cols), |cols|)
  {
    var less := NameLess(cols);
    forall x: nat, y: nat | x < |cols| && y < |cols| && less(x, y)
      ensures !less(y, x)
    {
      if less(y, x) {
        LessTransitive(cols[x].name, cols[y].name, cols[x].name);
        LessIrreflexive(cols[x].name);
      }
    }
    forall x: nat, y: nat, z: nat | x < |cols| && y < |cols| && z < |cols| && !less(y, x) && !less(z, y)
      ensures !less(z, x)
    {
      LessTotal(cols[x].name, cols[y].name);
      LessTotal(cols[y].name, cols[z].name);
      AtMostTransitive(cols[x].name, cols[y].name, cols[z].name);
      if less(z, x) {
        Squeezed(cols[z].name, cols[x].name, cols[z].name);
        LessIrreflexive(cols[x].name);
      }
    }
  }

  lemma AtMostTransitive(a: Key, b: Key, c: Key)
    requires AtMost(a, b) && AtMost(b, c)
    ensures AtMost(a, c)
  {
    if a != b && b != c { LessTransitive(a, b, c); }
  }

  /** columns.Swap. */
  method Swap(a: array<nat>, i: nat, j: nat)
    requires i < a.Length && j < a.Length
    modifies a
    ensures a[i] == old(a[j]) && a[j] == old(a[i])
    ensures forall p :: 0 <= p < a.Length && p != i && p != j ==> a[p] == old(a[p])
    ensures multiset(a[..]) == old(multiset(a[..]))
  {
    a[i], a[j] := a[j], a[i];
  }

  /** newColumns: the identity, sorted in place by swaps. */
  method NewColumns(cols: seq<Column>) returns (indices: array<nat>)
    ensures fresh(indices)
    ensures Permutation(|cols|, indices[..]) && SortedBy(cols, indices[..])
  {
    indices := new nat[|cols|](i => i);
    assert indices[..] == Identity(|cols|);
    NameLessOrders(cols);
    Sort(NameLess(cols), |cols|, indices);
    PermutationRange(|cols|, indices[..]);
    ghost var idx := indices[..];
    forall p, q | 0 <= p < q < |idx|
      ensures AtMost(cols[idx[p]].name, cols[idx[q]].name)
    {
      assert !NameLess(cols)(idx[q], idx[p]);
      LessTotal(cols[idx[p]].name, cols[idx[q]].name);
    }
  }

  /** sort.Sort by insertion, through Less and Swap alone. */
  method Sort(less: (nat, nat) -> bool, n: nat, a: array<nat>)
    requires Ordering(less, n) && forall p :: 0 <= p < a.Length ==> a[p] < n
    modifies a
    ensures multiset(a[..]) == old(multiset(a[..])) && Sorted(less, a[..])
  {
    var i := 0;
    while i < a.Length
      invariant 0 <= i <= a.Length
      invariant multiset(a[..]) == old(multiset(a[..]))
      invariant forall p :: 0 <= p < a.Length ==> a[p] < n
      invariant Sorted(less, a[..i])
    {
      Insert(less, n, a, i);
      i := i + 1;
    }
    assert a[..i] == a[..];
  }

  /** Moves the element at `i` down to its place among the sorted ones before it. */
  method Insert(less: (nat, nat) -> bool, n: nat, a: array<nat>, i: nat)
    requires Ordering(less, n) && i < a.Length && forall p :: 0 <= p < a.Length ==> a[p] < n
    requires Sorted(less, a[..i])
    modifies a
    ensures multiset(a[..]) == old(multiset(a[..]))
    ensures forall p :: 0 <= p < a.Length ==> a[p] < n
    ensures Sorted(less, a[..i + 1])
  {
    var j := i;
    assert forall p, q :: 0 <= p < q < i ==> a[..i][p] == a[p] && a[..i][q] == a[q];
    while j > 0 && less(a[j], a[j - 1])
      invariant 0 <= j <= i
      invariant multiset(a[..]) == old(multiset(a[..]))
      invariant forall p :: 0 <= p < a.Length ==> a[p] < n
      invariant forall p, q :: 0 <= p < q <= i && q != j ==> !less(a[q], a[p])
    {
      Swap(a, j, j - 1);
      j := j - 1;
    }
    forall p | 0 <= p < j
      ensures !less(a[j], a[p])
    {
      assert p < j - 1 ==> !less(a[j - 1], a[p]);
    }
  }

  // ---------------------------------------------------------------- the rules

  /** The errors one column contributes. */
  function ColumnErrors(token: Key -> bool, c: Column): seq<SchemaError> {
    (if NameValid(token, c.name) then [] else [BadName])
    + (if c.name == TIME then
         (if !c.kind.Timestamp? then [TimeSemantic] else if c.dataType.Some? then [TimestampDataType] else [])
       else match c.kind
         case Timestamp => [TimestampName]
         case Tag => if c.dataType.Some? then [TagDataType] else []
         case Field => if c.dataType.None? then [FieldDataType] else []
         case Other(_) => [])
  }

  function AllErrors(token: Key -> bool, cols: seq<Column>): seq<SchemaError> {
    if cols == [] then []
    else AllErrors(token, cols[..|cols| - 1]) + ColumnErrors(token, cols[|cols| - 1])
  }

  predicate IsTime(c: Column) {
    c.name == TIME
  }

  predicate IsField(c: Column) {
    c.name != TIME && c.kind.Field?
  }

  ghost predicate Any(f: Column -> bool, s: seq<Column>) {
    exists c :: c in s && f(c)
  }

  /** Two neighbours of the sorted columns whose names fold together. */
  ghost predicate Neighbours(cols: seq<Column>, idx: seq<nat>, fold: Key -> Key)
    requires forall p :: 0 <= p < |idx| ==> idx[p] < |cols|
  {
    exists p :: 0 <= p < |idx| - 1 && fold(cols[idx[p]].name) == fold(cols[idx[p + 1]].name)
  }

  /** Columns i and j fold together and no column's name lies strictly between theirs. */
  ghost predicate Clash(cols: seq<Column>, fold: Key -> Key, i: nat, j: nat) {
    && i < |cols| && j < |cols| && i != j && fold(cols[i].name) == fold(cols[j].name)
    && AtMost(cols[i].name, cols[j].name)
    && forall c :: c in cols ==> !(Less(cols[i].name, c.name) && Less(c.name, cols[j].name))
  }

  ghost predicate Clashes(cols: seq<Column>, fold: Key -> Key) {
    exists i, j :: Clash(cols, fold, i, j)
  }

  /** The errors of a schema, from the columns alone: the order the sort gives to equal
      names does not matter. */
  ghost function Errors(token: Key -> bool, cols: seq<Column>, fold: Key -> Key): seq<SchemaError> {
    if cols == [] then [ColumnsMissing]
    else AllErrors(token, cols)
         + (if Any(IsTime, cols) then [] else [MissingTime])
         + (if Any(IsField, cols) then [] else [MissingFields])
         + (if Clashes(cols, fold) then [DuplicateNames] else [])
  }

  /** validateColumns. `fold` stands for case folding: names are equal in the sense of
      EqualFold when it maps them to the same text. */
  method ValidateColumns(cols: seq<Column>, token: Key -> bool, fold: Key -> Key) returns (errs: seq<SchemaError>)
    ensures errs == Errors(token, cols, fold)
  {
    if cols == [] { return [ColumnsMissing]; }
    var times, fields;
    errs, times, fields := CheckEach(cols, token);
    if !times { errs := errs + [MissingTime]; }
    if !fields { errs := errs + [MissingFields]; }
    var dup := HasClashes(cols, fold);
    if dup { errs := errs + [DuplicateNames]; }
  }

  /** Sorts the columns by name and compares neighbours. */
  method HasClashes(cols: seq<Column>, fold: Key -> Key) returns (dup: bool)
    ensures dup <==> Clashes(cols, fold)
  {
    var indices := NewColumns(cols);
    var order := indices[..];
    PermutationRange(|cols|, order);
    NeighboursIff(cols, order, fold);
    dup := HasNeighbours(cols, order, fold);
  }

  /** The loop over the columns, counting times and fields. */
  method CheckEach(cols: seq<Column>, token: Key -> bool) returns (errs: seq<SchemaError>, times: bool, fields: bool)
    ensures errs == AllErrors(token, cols)
    ensures (times <==> Any(IsTime, cols)) && (fields <==> Any(IsField, cols))
  {
    errs := [];
    var timeCount, fieldCount := 0, 0;
    for i := 0 to |cols|
      invariant errs == AllErrors(token, cols[..i])
      invariant timeCount >= 0 && (timeCount > 0 <==> Any(IsTime, cols[..i]))
      invariant fieldCount >= 0 && (fieldCount > 0 <==> Any(IsField, cols[..i]))
    {
      var col := cols[i];
      AnyStep(IsTime, cols, i);
      AnyStep(IsField, cols, i);
      assert cols[..i + 1][..i] == cols[..i];
      errs := errs + ColumnErrors(token, col);
      if col.name == TIME {
        timeCount := timeCount + 1;
      } else if col.kind.Field? {
        fieldCount := fieldCount + 1;
      }
    }
    assert cols[..|cols|] == cols;
    return errs, timeCount > 0, fieldCount > 0;
  }

  method HasNeighbours(cols: seq<Column>, order: seq<nat>, fold: Key -> Key) returns (dup: bool)
    requires forall p :: 0 <= p < |order| ==> order[p] < |cols|
    ensures dup <==> Neighbours(cols, order, fold)
  {
    var p := 0;
    while p < |order| - 1
      invariant 0 <= p
      invariant forall q :: 0 <= q < p && q < |order| - 1 ==> fold(cols[order[q]].name) != fold(cols[order[q + 1]].name)
    {
      if fold(cols[order[p]].name) == fold(cols[order[p + 1]].name) { return true; }
      p := p + 1;
    }
    return false;
  }

  lemma AnyStep(f: Column -> bool, s: seq<Column>, i: nat)
    requires i < |s|
    ensures Any(f, s[..i + 1]) <==> Any(f, s[..i]) || f(s[i])
  {
    assert s[..i + 1] == s[..i] + [s[i]];
    if Any(f, s[..i]) {
      var c :| c in s[..i] && f(c);
      assert c in s[..i + 1];
    }
    if f(s[i]) { assert s[i] in s[..i + 1]; }
  }

  // ---------------------------------------------------------------- meaning

  /** What a column has to look like. */
  predicate WellTyped(token: Key -> bool, c: Column) {
    && NameValid(token, c.name)
    && (c.name == TIME <==> c.kind.Timestamp?)
    && (c.kind.Timestamp? || c.kind.Tag? ==> c.dataType.None?)
    && (c.kind.Field? ==> c.dataType.Some?)
  }

  ghost predicate NamesDistinct(cols: seq<Column>) {
    forall i, j :: 0 <= i < j < |cols| ==> cols[i].name != cols[j].name
  }

  ghost predicate FoldsDistinct(cols: seq<Column>, fold: Key -> Key) {
    forall i, j :: 0 <= i < j < |cols| ==> fold(cols[i].name) != fold(cols[j].name)
  }

  lemma {:induction false} NoColumnErrors(token: Key -> bool, cols: seq<Column>)
    ensures AllErrors(token, cols) == [] <==> forall c :: c in cols ==> ColumnErrors(token, c) == []
  {
    if cols == [] {
    } else {
      NoColumnErrors(token, cols[..|cols| - 1]);
      assert cols == cols[..|cols| - 1] + [cols[|cols| - 1]];
    }
  }

  lemma ColumnClean(token: Key -> bool, c: Column)
    ensures ColumnErrors(token, c) == [] <==> WellTyped(token, c)
  {
  }

  /** Which errors a column reports: each exactly for its own fault. */
  lemma ColumnErrorsIff(token: Key -> bool, c: Column)
    ensures var errs := ColumnErrors(token, c);
            var time := c.name == [116, 105, 109, 101];
            && (BadName in errs <==> !(1 <= |c.name| <= 128 && token(c.name) && c.name[0] != 95
                                       && forall i :: 0 <= i < |c.name| ==> c.name[i] != 34 && c.name[i] != 39))
            && (TimeSemantic in errs <==> time && !c.kind.Timestamp?)
            && (TimestampDataType in errs <==> time && c.kind.Timestamp? && c.dataType.Some?)
            && (TimestampName in errs <==> !time && c.kind.Timestamp?)
            && (TagDataType in errs <==> !time && c.kind.Tag? && c.dataType.Some?)
            && (FieldDataType in errs <==> !time && c.kind.Field? && c.dataType.None?)
            && ColumnsMissing !in errs && MissingTime !in errs && MissingFields !in errs && DuplicateNames !in errs
  {
  }

  /** The errors of the columns follow each other in the order of the columns. */
  lemma ErrorsOfOneMore(token: Key -> bool, cols: seq<Column>, c: Column)
    ensures AllErrors(token, cols + [c]) == AllErrors(token, cols) + ColumnErrors(token, c)
  {
    assert (cols + [c])[..|cols|] == cols;
  }

  lemma {:induction false} WholeSchemaErrorsApart(token: Key -> bool, cols: seq<Column>, e: SchemaError)
    requires e == ColumnsMissing || e == MissingTime || e == MissingFields || e == DuplicateNames
    ensures e !in AllErrors(token, cols)
  {
    if cols == [] {
    } else {
      WholeSchemaErrorsApart(token, cols[..|cols| - 1], e);
      ColumnErrorsIff(token, cols[|cols| - 1]);
    }
  }

  /** They come after those of the columns: time, then fields, then names. */
  lemma SchemaErrorsLast(token: Key -> bool, cols: seq<Column>, fold: Key -> Key)
    requires cols != []
    ensures exists tail :: Errors(token, cols, fold) == AllErrors(token, cols) + tail && InOrder(tail)
  {
    var x := if Any(IsTime, cols) then [] else [MissingTime];
    var y := if Any(IsField, cols) then [] else [MissingFields];
    var z := if Clashes(cols, fold) then [DuplicateNames] else [];
    Regrouped(AllErrors(token, cols), x, y, z);
    TailInOrder(Any(IsTime, cols), Any(IsField, cols), Clashes(cols, fold));
    assert Errors(token, cols, fold) == AllErrors(token, cols) + (x + y + z);
  }

  predicate InOrder(tail: seq<SchemaError>) {
    forall i, j :: 0 <= i < j < |tail| ==>
      (tail[i] == MissingTime && tail[j] != MissingTime) || (tail[i] == MissingFields && tail[j] == DuplicateNames)
  }

  lemma Regrouped(a: seq<SchemaError>, x: seq<SchemaError>, y: seq<SchemaError>, z: seq<SchemaError>)
    ensures a + x + y + z == a + (x + y + z)
  {
  }

  lemma TailInOrder(time: bool, field: bool, clash: bool)
    ensures InOrder((if time then [] else [MissingTime]) + (if field then [] else [MissingFields])
                    + (if clash then [DuplicateNames] else []))
  {
  }

  /** When the errors of the whole schema are reported. */
  lemma SchemaErrorsIff(token: Key -> bool, cols: seq<Column>, fold: Key -> Key)
    ensures var errs := Errors(token, cols, fold);
            && (ColumnsMissing in errs <==> cols == [])
            && (MissingTime in errs <==> cols != [] && forall c :: c in cols ==> c.name != [116, 105, 109, 101])
            && (MissingFields in errs <==>
                  cols != [] && forall c :: c in cols && c.kind.Field? ==> c.name == [116, 105, 109, 101])
            && (DuplicateNames in errs <==> Clashes(cols, fold))
  {
    WholeSchemaErrorsApart(token, cols, ColumnsMissing);
    WholeSchemaErrorsApart(token, cols, MissingTime);
    WholeSchemaErrorsApart(token, cols, MissingFields);
    WholeSchemaErrorsApart(token, cols, DuplicateNames);
    assert Any(IsTime, cols) <==> exists c :: c in cols && IsTime(c);
    assert Any(IsField, cols) <==> exists c :: c in cols && IsField(c);
  }

  /** Equal names become neighbours, so if no neighbours fold together all names differ. */
  lemma NeighboursFindRepeats(cols: seq<Column>, idx: seq<nat>, fold: Key -> Key)
    requires Permutation(|cols|, idx) && SortedBy(cols, idx) && !Neighbours(cols, idx, fold)
    ensures NamesDistinct(cols)
  {
    PermutationRange(|cols|, idx);
    forall i, j | 0 <= i < j < |cols|
      ensures cols[i].name != cols[j].name
    {
      if cols[i].name == cols[j].name {
        assert i in idx && j in idx;
        var p :| 0 <= p < |idx| && idx[p] == i;
        var q :| 0 <= q < |idx| && idx[q] == j;
        var lo := if p < q then p else q;
        var hi := if p < q then q else p;
        Squeezed(cols[idx[lo]].name, cols[idx[lo + 1]].name, cols[idx[hi]].name);
      }
    }
  }

  lemma Squeezed(a: Key, b: Key, c: Key)
    requires AtMost(a, b) && AtMost(b, c) && a == c
    ensures a == b
  {
    if a != b && b != c {
      LessTransitive(a, b, a);
      LessIrreflexive(a);
    }
  }

  /** Comparing neighbours of the sorted columns finds exactly the clashes. */
  lemma NeighboursIff(cols: seq<Column>, idx: seq<nat>, fold: Key -> Key)
    requires Permutation(|cols|, idx) && SortedBy(cols, idx)
    ensures Neighbours(cols, idx, fold) <==> Clashes(cols, fold)
  {
    if Neighbours(cols, idx, fold) {
      var p :| 0 <= p < |idx| - 1 && fold(cols[idx[p]].name) == fold(cols[idx[p + 1]].name);
      PermutationDistinct(|cols|, idx, p, p + 1);
      NeighboursAdjacent(cols, idx, p);
      assert Clash(cols, fold, idx[p], idx[p + 1]);
    } else if Clashes(cols, fold) {
      var i, j :| Clash(cols, fold, i, j);
      ClashIsNeighbours(cols, idx, fold, i, j);
    }
  }

  /** No name lies strictly between those of sorted neighbours. */
  lemma NeighboursAdjacent(cols: seq<Column>, idx: seq<nat>, p: nat)
    requires Permutation(|cols|, idx) && SortedBy(cols, idx) && p + 1 < |idx|
    ensures forall c :: c in cols ==> !(Less(cols[idx[p]].name, c.name) && Less(c.name, cols[idx[p + 1]].name))
  {
    PermutationRange(|cols|, idx);
    forall c | c in cols
      ensures !(Less(cols[idx[p]].name, c.name) && Less(c.name, cols[idx[p + 1]].name))
    {
      var k :| 0 <= k < |cols| && cols[k] == c;
      assert k in idx;
      var q :| 0 <= q < |idx| && idx[q] == k;
      if q <= p { NotBelow(c.name, cols[idx[p]].name); } else { NotBelow(cols[idx[p + 1]].name, c.name); }
    }
  }

  lemma NotBelow(a: Key, b: Key)
    requires AtMost(a, b)
    ensures !Less(b, a)
  {
    if Less(b, a) {
      Squeezed(a, b, a);
      LessIrreflexive(a);
    }
  }

  lemma ClashIsNeighbours(cols: seq<Column>, idx: seq<nat>, fold: Key -> Key, i: nat, j: nat)
    requires Permutation(|cols|, idx) && SortedBy(cols, idx) && Clash(cols, fold, i, j)
    ensures Neighbours(cols, idx, fold)
  {
    if NamesDistinct(cols) {
      PermutationRange(|cols|, idx);
      assert i in idx && j in idx;
      var p :| 0 <= p < |idx| && idx[p] == i;
      var q :| 0 <= q < |idx| && idx[q] == j;
      ClashIsNext(cols, idx, fold, p, q);
    } else if !Neighbours(cols, idx, fold) {
      NeighboursFindRepeats(cols, idx, fold);
    }
  }

  /** Were the two not next to each other, a column between them would repeat a name. */
  lemma ClashIsNext(cols: seq<Column>, idx: seq<nat>, fold: Key -> Key, p: nat, q: nat)
    requires Permutation(|cols|, idx) && SortedBy(cols, idx) && NamesDistinct(cols)
    requires p < |idx| && q < |idx| && Clash(cols, fold, idx[p], idx[q])
    ensures q == p + 1
  {
    if q < p { NotBelow(cols[idx[q]].name, cols[idx[p]].name); }
    if p + 1 < q {
      assert cols[idx[p + 1]] in cols;
      PermutationDistinct(|cols|, idx, p, p + 1);
      PermutationDistinct(|cols|, idx, p + 1, q);
    }
  }

  /** Different positions of a permutation hold different columns. */
  lemma PermutationDistinct(n: nat, idx: seq<nat>, p: nat, q: nat)
    requires Permutation(n, idx) && p < q < |idx|
    ensures idx[p] != idx[q]
  {
    if idx[p] == idx[q] {
      var x := idx[p];
      assert idx == idx[..q] + [x] + idx[q + 1..];
      assert x in idx[..q] by { assert idx[..q][p] == x; }
      assert multiset(idx[..q])[x] >= 1;
      assert multiset(idx)[x] >= 2;
      IdentityOnce(n, x);
    }
  }

  lemma {:induction false} IdentityOnce(n: nat, x: nat)
    ensures multiset(Identity(n))[x] <= 1
  {
    if n == 0 {
    } else {
      IdentityOnce(n - 1, x);
      assert Identity(n) == Identity(n - 1) + [n - 1];
      if x == n - 1 { assert x !in Identity(n - 1); }
    }
  }

  /** The schema as it should be. */
  ghost predicate GoodSchema(token: Key -> bool, cols: seq<Column>) {
    && (forall c :: c in cols ==> WellTyped(token, c))
    && NamesDistinct(cols)
    && (exists c :: c in cols && c.kind.Timestamp?)
    && (exists c :: c in cols && c.kind.Field?)
  }

  /** Two columns of one name clash. */
  lemma SameNameClash(cols: seq<Column>, fold: Key -> Key, i: nat, j: nat)
    requires i < j < |cols| && cols[i].name == cols[j].name
    ensures Clash(cols, fold, i, j)
  {
    forall c | c in cols && Less(cols[i].name, c.name)
      ensures !Less(c.name, cols[j].name)
    {
      NotBelow(cols[i].name, c.name);
    }
  }

  lemma NoClashNamesDistinct(cols: seq<Column>, fold: Key -> Key)
    requires !Clashes(cols, fold)
    ensures NamesDistinct(cols)
  {
    forall i, j | 0 <= i < j < |cols|
      ensures cols[i].name != cols[j].name
    {
      if cols[i].name == cols[j].name { SameNameClash(cols, fold, i, j); }
    }
  }

  lemma NoErrorsIff(token: Key -> bool, cols: seq<Column>)
    ensures AllErrors(token, cols) == [] <==> forall c :: c in cols ==> WellTyped(token, c)
  {
    NoColumnErrors(token, cols);
    forall c | c in cols
      ensures ColumnErrors(token, c) == [] <==> WellTyped(token, c)
    {
      ColumnClean(token, c);
    }
  }

  /** A schema has no errors exactly when it is good and no two names fold together with
      none between them. */
  lemma AcceptedIff(token: Key -> bool, cols: seq<Column>, fold: Key -> Key)
    ensures Errors(token, cols, fold) == [] <==> GoodSchema(token, cols) && !Clashes(cols, fold)
  {
    NoErrorsIff(token, cols);
    if Errors(token, cols, fold) == [] {
      NoClashNamesDistinct(cols, fold);
      var t :| t in cols && IsTime(t);
      var f :| f in cols && IsField(f);
      assert t.kind.Timestamp? && f.kind.Field?;
    }
    if GoodSchema(token, cols) && !Clashes(cols, fold) {
      var t :| t in cols && t.kind.Timestamp?;
      var f :| f in cols && f.kind.Field?;
      assert IsTime(t) && IsField(f);
    }
  }

  /** A schema without errors is good: names differ, one column named time is the only
      timestamp, fields have data types, tags and the time have none, and a field exists. */
  lemma AcceptedIsGood(token: Key -> bool, cols: seq<Column>, fold: Key -> Key)
    requires Errors(token, cols, fold) == []
    ensures GoodSchema(token, cols)
    ensures forall i, j :: 0 <= i < j < |cols| ==> !(cols[i].kind.Timestamp? && cols[j].kind.Timestamp?)
  {
    AcceptedIff(token, cols, fold);
    forall i, j | 0 <= i < j < |cols|
      ensures !(cols[i].kind.Timestamp? && cols[j].kind.Timestamp?)
    {
      assert cols[i] in cols && cols[j] in cols;
    }
  }

  /** Conversely a good schema whose names differ even when folded has no errors. */
  lemma GoodIsAccepted(token: Key -> bool, cols: seq<Column>, fold: Key -> Key)
    requires GoodSchema(token, cols) && FoldsDistinct(cols, fold)
    ensures Errors(token, cols, fold) == []
  {
    AcceptedIff(token, cols, fold);
    forall i: nat, j: nat
      ensures !Clash(cols, fold, i, j)
    {
      if i < |cols| && j < |cols| && i != j { assert fold(cols[i].name) != fold(cols[j].name); }
    }
  }

  /** ASCII case folding of one byte. */
  function LowerByte(b: Byte): Byte {
    if 65 <= b <= 90 then b + 32 else b
  }

  function Lower(k: Key): (r: Key)
    ensures |r| == |k| && forall i :: 0 <= i < |k| ==> r[i] == LowerByte(k[i])
  {
    seq(|k|, i requires 0 <= i < |k| => LowerByte(k[i]))
  }

  predicate AnyToken(k: Key) {
    true
  }

  const SAMPLE := [Column([65], Field, Some(0)), Column([66], Field, Some(0)), Column([97], Field, Some(0)),
                   Column(TIME, Timestamp, None)]

  lemma SampleFolds()
    ensures Lower([65]) == [97] && Lower([66]) == [98] && Lower([97]) == [97] && |Lower(TIME)| == 4
  {
  }

  lemma SampleDoesNotClash()
    ensures !Clashes(SAMPLE, Lower)
  {
    SampleFolds();
    forall i: nat, j: nat
      ensures !Clash(SAMPLE, Lower, i, j)
    {
      assert Less([65], [66]) && Less([66], [97]);
      assert SAMPLE[1] in SAMPLE;
      NotBelow([65], [97]);
    }
  }

  /** Only neighbours are compared, and the order is case sensitive: A and a fold
      together but B stands between them. */
  lemma FoldedRepeatMissed()
    ensures Errors(AnyToken, SAMPLE, Lower) == [] && Lower(SAMPLE[0].name) == Lower(SAMPLE[2].name)
  {
    SampleFolds();
    SampleDoesNotClash();
    assert SAMPLE[0] in SAMPLE && SAMPLE[3] in SAMPLE;
    AcceptedIff(AnyToken, SAMPLE, Lower);
  }
}
