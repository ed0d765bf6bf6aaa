/** The dashboard service: operations that update the three buckets in place, and the
    two ways of listing an organization's dashboards. */
module DashboardService {
  import opened Wrappers
  import opened Bytes
  import opened Ids
  import opened BoltCursor
  import opened Dashboards
  import Runs = DashboardRuns

  datatype Filter = Filter(ids: seq<Id>, org: Option<Id>, owner: Option<Id>)

  predicate Accepts(f: Filter, d: Dashboard) {
    if f.ids != [] then d.id in f.ids
    else (f.org.None? || f.org.value == d.org) && (f.owner.None? || f.owner == d.owner)
  }

  function Passes(s: Store, f: Filter): Key -> bool {
    k => k in s.dashboards && Accepts(f, s.dashboards[k])
  }

  function PassesIn(s: Store, org: Id, f: Filter): Key -> bool {
    k => k in s.dashboards && s.dashboards[k].org == org && Accepts(f, s.dashboards[k])
  }

  function Shown(s: Store, ks: seq<Key>): (r: seq<Dashboard>)
    requires forall k :: k in ks ==> k in s.dashboards
    ensures |r| == |ks| && forall i :: 0 <= i < |ks| ==> r[i] == s.dashboards[ks[i]]
  {
    seq(|ks|, i requires 0 <= i < |ks| => s.dashboards[ks[i]])
  }

  /** Reference listings: a scan of all dashboards in key order. */
  function Scan(s: Store, f: Filter): seq<Dashboard> {
    Shown(s, Select(Passes(s, f), SortedKeys(s.dashboards.Keys)))
  }

  function ScanOrganization(s: Store, org: Id, f: Filter): seq<Dashboard> {
    Shown(s, Select(PassesIn(s, org, f), SortedKeys(s.dashboards.Keys)))
  }

  /** A dashboard is listed exactly when its id is among those asked for, or, if none are,
      when it has the organization and the owner asked for. */
  lemma ScannedIff(s: Store, f: Filter, d: Dashboard)
    ensures d in Scan(s, f) <==>
            && (exists k :: k in s.dashboards && s.dashboards[k] == d)
            && (f.ids != [] ==> exists i :: 0 <= i < |f.ids| && f.ids[i] == d.id)
            && (f.ids == [] && f.org.Some? ==> d.org == f.org.value)
            && (f.ids == [] && f.owner.Some? ==> d.owner.Some? && d.owner.value == f.owner.value)
  {
    var ks := Select(Passes(s, f), SortedKeys(s.dashboards.Keys));
    if d in Scan(s, f) {
      var i :| 0 <= i < |ks| && Scan(s, f)[i] == d;
      assert ks[i] in ks;
    }
    if k :| k in s.dashboards && s.dashboards[k] == d && Accepts(f, d) {
      assert k in ks;
      var i :| 0 <= i < |ks| && ks[i] == k;
      assert Scan(s, f)[i] == d;
    }
  }

  /** With the organization in the filter and no ids, the two scans are one. */
  lemma OrganizationFilterIsScan(s: Store, f: Filter)
    requires f.org.Some? && f.ids == []
    ensures ScanOrganization(s, f.org.value, f) == Scan(s, f)
  {
    var ks := SortedKeys(s.dashboards.Keys);
    SelectAscending(Passes(s, f), ks);
    SelectAscending(PassesIn(s, f.org.value, f), ks);
    AscendingUnique(Select(Passes(s, f), ks), Select(PassesIn(s, f.org.value, f), ks));
  }

  /** The dashboard parts of a run of index keys. */
  function Tails(xs: seq<Key>): (r: seq<Key>)
    requires forall x :: x in xs ==> |x| == 2 * ID_LENGTH
    ensures |r| == |xs| && forall i :: 0 <= i < |xs| ==> r[i] == xs[i][ID_LENGTH..]
  {
    seq(|xs|, i requires 0 <= i < |xs| => assert xs[i] in xs; xs[i][ID_LENGTH..])
  }

  lemma IndexKeyShape(s: Store, x: Key)
    requires KeyedById(s) && IndexExact(s) && x in s.orgIndex
    ensures |x| == 2 * ID_LENGTH
    ensures x[ID_LENGTH..] in s.dashboards
    ensures x[..ID_LENGTH] == Enc(s.dashboards[x[ID_LENGTH..]].org)
    ensures Decode(x[..ID_LENGTH]).Ok? && Decode(x[ID_LENGTH..]) == Ok(s.dashboards[x[ID_LENGTH..]].id)
  {
    var k :| k in s.dashboards && x == IndexKey(s.dashboards[k]);
    EncPairParts(s.dashboards[k].org, s.dashboards[k].id);
  }

  ghost function OrgRun(s: Store, org: Id): seq<Key>
    requires Valid(org)
  {
    Matching(SortedKeys(s.orgIndex), Enc(org), WithPrefix(Enc(org)))
  }

  /** The prefix range of an organization holds, in dashboard order, exactly its dashboards. */
  lemma OrgRunIsOrganization(s: Store, org: Id)
    requires Inv(s) && Valid(org)
    ensures forall x :: x in OrgRun(s, org) ==> x in s.orgIndex && |x| == 2 * ID_LENGTH
    ensures Ascending(Tails(OrgRun(s, org)))
    ensures forall k :: k in Tails(OrgRun(s, org)) <==> k in s.dashboards && s.dashboards[k].org == org
  {
    var keys, run := SortedKeys(s.orgIndex), OrgRun(s, org);
    IndexBucketKeys(s);
    PrefixEnumeration(keys, Enc(org));
    forall x | x in run
      ensures x in s.orgIndex && |x| == 2 * ID_LENGTH
    {
      IndexKeyShape(s, x);
    }
    TailsAscending(run, Enc(org));
    forall k
      ensures k in Tails(run) <==> k in s.dashboards && s.dashboards[k].org == org
    {
      if k in Tails(run) {
        var i :| 0 <= i < |run| && k == run[i][ID_LENGTH..];
        assert run[i] in run;
        IndexKeyShape(s, run[i]);
        EncInjective(org, s.dashboards[k].org);
      }
      if k in s.dashboards && s.dashboards[k].org == org {
        var x := IndexKey(s.dashboards[k]);
        EncPairParts(org, s.dashboards[k].id);
        assert x in s.orgIndex && x in run;
        var i :| 0 <= i < |run| && run[i] == x;
        assert Tails(run)[i] == k;
      }
    }
  }

  lemma IndexBucketKeys(s: Store)
    requires Inv(s)
    ensures BucketKeys(SortedKeys(s.orgIndex))
  {
    forall x | x in s.orgIndex
      ensures x != []
    {
      IndexKeyShape(s, x);
    }
  }

  lemma TailsAscending(xs: seq<Key>, head: Key)
    requires Ascending(xs) && |head| == ID_LENGTH
    requires forall x :: x in xs ==> |x| == 2 * ID_LENGTH && x[..ID_LENGTH] == head
    ensures Ascending(Tails(xs))
  {
    forall i, j | 0 <= i < j < |xs|
      ensures Less(Tails(xs)[i], Tails(xs)[j])
    {
      assert xs[i] in xs && xs[j] in xs;
      assert xs[i] == head + xs[i][ID_LENGTH..] && xs[j] == head + xs[j][ID_LENGTH..];
      LessAppend(head, xs[i][ID_LENGTH..], xs[j][ID_LENGTH..]);
    }
  }

  lemma ShownStep(s: Store, ok: Key -> bool, ks: seq<Key>, n: nat)
    requires n < |ks| && ks[n] in s.dashboards && forall j :: ok(j) ==> j in s.dashboards
    ensures Shown(s, Select(ok, ks[..n + 1])) ==
            if ok(ks[n]) then Shown(s, Select(ok, ks[..n])) + [s.dashboards[ks[n]]] else Shown(s, Select(ok, ks[..n]))
  {
    SelectStep(ok, ks, n);
  }

  /** The page a scan returns: past `offset` accepted dashboards, `limit` of them (0: all). */
  function Page(ds: seq<Dashboard>, offset: int, limit: int): seq<Dashboard> {
    var from := if offset <= 0 then 0 else if offset < |ds| then offset else |ds|;
    var rest := ds[from..];
    if limit > 0 && limit < |rest| then rest[..limit] else rest
  }

  /** A page holds the dashboards from the offset on, in order, as many as the limit allows. */
  lemma PageHolds(ds: seq<Dashboard>, offset: int, limit: int)
    ensures var from := if offset < 0 then 0 else offset;
            var page := Page(ds, offset, limit);
            && |page| == (if from >= |ds| then 0
                          else if limit > 0 && from + limit <= |ds| then limit
                          else |ds| - from)
            && forall i :: 0 <= i < |page| ==> page[i] == ds[from + i]
  {
  }

  class Service {
    var dashboards: map<Key, Dashboard>
    var orgIndex: set<Key>
    var views: map<Key, View>

    function State(): Store
      reads this
    {
      Store(dashboards, orgIndex, views)
    }

    constructor ()
      ensures State() == EMPTY && Runs.Good(State())
    {
      dashboards, orgIndex, views := map[], {}, map[];
    }

    method CreateDashboard(given: Dashboard, id: Id, cellIds: seq<Id>) returns (e: Option<Error>)
      requires |cellIds| == |given.cells|
      modifies this
      ensures (State(), e) == CreateStep(old(State()), given, id, cellIds)
      ensures old(Runs.Good(State())) && Runs.Proper(old(State()), Runs.Create(given, id, cellIds)) ==>
                Runs.Good(State())
      ensures old(Inv(State())) ==> OtherViewsUntouched(old(views), views, id)
    {
      Runs.CallKeeps(State(), Runs.Create(given, id, cellIds));
      var cells := Numbered(given.cells, cellIds);
      if !Valid(id) || !CellsValid(cells) { return Some(BadId); }
      var pending := PutEach(views, id, cells, true);
      if !Valid(given.org) { return Some(BadId); }
      views := pending;
      orgIndex := orgIndex + {EncPair(given.org, id)};
      dashboards := dashboards[Enc(id) := given.(id := id, cells := Reread(cells))];
      return None;
    }

    method ReplaceDashboardCells(id: Id, cs: seq<Cell>) returns (e: Option<Error>)
      modifies this
      ensures (State(), e) == ReplaceStep(old(State()), id, cs)
      ensures old(Runs.Good(State())) && Runs.Proper(old(State()), Runs.Replace(id, cs)) ==>
                Runs.Good(State())
      ensures old(Inv(State())) ==> OtherViewsUntouched(old(views), views, id)
    {
      Runs.CallKeeps(State(), Runs.Replace(id, cs));
      var d := Find(State(), id);
      if d.Err? { return Some(d.error); }
      var known := CellIds(d.value.cells);
      var i := 0;
      while i < |cs|
        invariant 0 <= i <= |cs|
        invariant ReplaceError(known, cs) == ReplaceError(known, cs[i..])
      {
        if !Valid(cs[i].id) { return Some(Invalid); }
        if cs[i].id !in known { return Some(Conflict); }
        i := i + 1;
      }
      dashboards := dashboards[Enc(id) := d.value.(cells := Reread(cs))];
      return None;
    }

    method AddDashboardCell(id: Id, cell: Cell, cellId: Id, view: Option<View>) returns (e: Option<Error>)
      modifies this
      ensures (State(), e) == AddCellStep(old(State()), id, cell, cellId, view)
      ensures old(Runs.Good(State())) && Runs.Proper(old(State()), Runs.AddCell(id, cell, cellId, view)) ==>
                Runs.Good(State())
      ensures old(Inv(State())) ==> OtherViewsUntouched(old(views), views, id)
    {
      Runs.CallKeeps(State(), Runs.AddCell(id, cell, cellId, view));
      var d := Find(State(), id);
      if d.Err? { return Some(d.error); }
      if !Valid(cellId) { return Some(BadId); }
      var v := if view.Some? then view.value else BLANK;
      views := views[EncPair(id, cellId) := v.(id := cellId)];
      dashboards := dashboards[Enc(id) := d.value.(cells := d.value.cells + [RereadCell(cell.(id := cellId))])];
      return None;
    }

    method IndexOfCell(cells: seq<Cell>, cellId: Id) returns (i: int)
      ensures i == IndexOf(cells, cellId)
    {
      var j := 0;
      while j < |cells|
        invariant 0 <= j <= |cells|
        invariant forall c :: c in cells[..j] ==> c.id != cellId
      {
        if cells[j].id == cellId {
          assert forall m :: 0 <= m < j ==> cells[m] in cells[..j];
          return j;
        }
        assert cells[..j + 1] == cells[..j] + [cells[j]];
        j := j + 1;
      }
      assert cells[..j] == cells;
      return -1;
    }

    method RemoveDashboardCell(id: Id, cellId: Id) returns (e: Option<Error>)
      modifies this
      ensures (State(), e) == RemoveCellStep(old(State()), id, cellId)
      ensures old(Runs.Good(State())) ==> Runs.Good(State())
      ensures old(Inv(State())) ==> OtherViewsUntouched(old(views), views, id)
    {
      Runs.CallKeeps(State(), Runs.RemoveCell(id, cellId));
      var d := Find(State(), id);
      if d.Err? { return Some(d.error); }
      var i := IndexOfCell(d.value.cells, cellId);
      if i < 0 { return Some(CellNotFound); }
      if !Valid(cellId) { return Some(BadId); }
      views := views - {EncPair(id, cellId)};
      dashboards := dashboards[Enc(id) := d.value.(cells := Without(d.value.cells, i))];
      return None;
    }

    method UpdateDashboardCell(id: Id, cellId: Id, u: CellUpdate) returns (e: Option<Error>)
      modifies this
      ensures (State(), e) == UpdateCellStep(old(State()), id, cellId, u)
      ensures old(Runs.Good(State())) ==> Runs.Good(State())
      ensures old(Inv(State())) ==> OtherViewsUntouched(old(views), views, id)
    {
      Runs.CallKeeps(State(), Runs.UpdateCell(id, cellId, u));
      if u == CellUpdate(None, None, None, None) { return Some(Invalid); }
      var d := Find(State(), id);
      if d.Err? { return Some(d.error); }
      var i := IndexOfCell(d.value.cells, cellId);
      if i < 0 { return Some(CellNotFound); }
      dashboards := dashboards[Enc(id) := d.value.(cells := d.value.cells[i := ApplyCell(u, d.value.cells[i])])];
      return None;
    }

    method UpdateDashboardCellView(id: Id, cellId: Id, name: Option<Key>, properties: Option<Key>)
      returns (e: Option<Error>)
      modifies this
      ensures (State(), e) == UpdateViewStep(old(State()), id, cellId, name, properties)
      ensures old(Runs.Good(State())) ==> Runs.Good(State())
      ensures old(Inv(State())) ==> OtherViewsUntouched(old(views), views, id)
    {
      Runs.CallKeeps(State(), Runs.UpdateView(id, cellId, name, properties));
      if !Valid(id) || !Valid(cellId) { return Some(BadId); }
      var k := EncPair(id, cellId);
      if k !in views { return Some(ViewNotFound); }
      if name.None? && properties == Some([]) { return Some(Invalid); }
      var v := views[k];
      if name.Some? { v := v.(name := name.value); }
      if properties.Some? { v := v.(properties := properties); }
      views := views[k := v];
      return None;
    }

    method UpdateDashboard(id: Id, u: DashboardUpdate, ids: seq<Id>) returns (e: Option<Error>)
      requires u.cells.Some? ==> |ids| == |u.cells.value|
      modifies this
      ensures (State(), e) == UpdateStep(old(State()), id, u, ids)
      ensures old(Runs.Good(State())) && Runs.Proper(old(State()), Runs.Update(id, u, ids)) ==>
                Runs.Good(State())
      ensures old(Inv(State())) ==> OtherViewsUntouched(old(views), views, id)
    {
      Runs.CallKeeps(State(), Runs.Update(id, u, ids));
      if u.name.None? && u.description.None? { return Some(Invalid); }
      var found := Find(State(), id);
      if found.Err? { return Some(found.error); }
      var d := found.value.(name := Or(u.name, found.value.name),
                            description := Or(u.description, found.value.description));
      if u.cells.None? {
        dashboards := dashboards[Enc(id) := d];
        return None;
      }
      var cells := Completed(u.cells.value, ids);
      if !CellsValid(d.cells) || !CellsValid(cells) { return Some(BadId); }
      var pending := DropEach(views, id, d.cells);
      views := PutEach(pending, id, cells, false);
      dashboards := dashboards[Enc(id) := d.(cells := Reread(cells))];
      return None;
    }

    method DeleteDashboard(id: Id) returns (e: Option<Error>)
      modifies this
      ensures (State(), e) == DeleteStep(old(State()), id)
      ensures old(Runs.Good(State())) ==> Runs.Good(State())
      ensures old(Inv(State())) ==> OtherViewsUntouched(old(views), views, id)
    {
      Runs.CallKeeps(State(), Runs.Delete(id));
      var d := Find(State(), id);
      if d.Err? { return Some(d.error); }
      if !Valid(d.value.org) || !Valid(d.value.id) || !CellsValid(d.value.cells) { return Some(BadId); }
      views := DropEach(views, d.value.id, d.value.cells);
      orgIndex := orgIndex - {EncPair(d.value.org, d.value.id)};
      dashboards := dashboards - {Enc(id)};
      return None;
    }

    /** The organization index path: a prefix cursor, a decoded key, a point read. */
    method FindOrganizationDashboards(org: Id, f: Filter) returns (r: Result<seq<Dashboard>, Error>)
      requires Inv(State())
      ensures r == if Valid(org) then Ok(ScanOrganization(State(), org, f)) else Err(BadId)
    {
      if !Valid(org) { return Err(BadId); }
      OrgRunIsOrganization(State(), org);
      var run := OrganizationKeys(org);
      forall n | 0 <= n < |run|
        ensures NamesDashboard(State(), org, run[n])
      {
        RunTail(State(), org, run, n);
      }
      r := ReadOrganization(State(), org, f, run);
      SelectAgrees(PassesIn(State(), org, f), Tails(run), SortedKeys(dashboards.Keys));
    }

    /** Everything the cursor over an organization's prefix returns. */
    method OrganizationKeys(org: Id) returns (run: seq<Key>)
      requires Inv(State()) && Valid(org)
      ensures run == OrgRun(State(), org)
    {
      var keys := SortedKeys(orgIndex);
      IndexBucketKeys(State());
      assert HasPrefix(Enc(org), Enc(org));
      var cur := ForwardCursor(keys, Enc(org), WithPrefix(Enc(org)));
      run := Drain(cur);
    }

    /** The full scan, in either direction, with offset and limit. */
    method FindAllDashboards(f: Filter, descending: bool, offset: int, limit: int) returns (ds: seq<Dashboard>)
      requires Inv(State())
      ensures ds == Page(if descending then Reverse(Scan(State(), f)) else Scan(State(), f), offset, limit)
    {
      var run := BucketKeysInOrder(dashboards, descending);
      ds := CollectPage(State(), run, f, offset, limit);
      ScanDirections(State(), f, run, descending);
    }
  }

  /** The index key decodes to a dashboard of the organization. */
  ghost predicate NamesDashboard(s: Store, org: Id, x: Key) {
    && |x| == 2 * ID_LENGTH && Decode(x[..ID_LENGTH]).Ok? && Decode(x[ID_LENGTH..]).Ok?
    && x[ID_LENGTH..] in s.dashboards && s.dashboards[x[ID_LENGTH..]].org == org
    && Find(s, Decode(x[ID_LENGTH..]).value) == Ok(s.dashboards[x[ID_LENGTH..]])
  }

  /** Decodes an index key and reads the dashboard it names. */
  method ReadIndexed(s: Store, x: Key) returns (r: Result<Dashboard, Error>)
    ensures |x| == 2 * ID_LENGTH && Decode(x[..ID_LENGTH]).Ok? && Decode(x[ID_LENGTH..]).Ok? ==>
              r == Find(s, Decode(x[ID_LENGTH..]).value)
  {
    if |x| != 2 * ID_LENGTH || Decode(x[..ID_LENGTH]).Err? || Decode(x[ID_LENGTH..]).Err? {
      return Err(Malformed);
    }
    return Find(s, Decode(x[ID_LENGTH..]).value);
  }

  /** The loop over an organization's index keys. */
  method ReadOrganization(s: Store, org: Id, f: Filter, run: seq<Key>) returns (r: Result<seq<Dashboard>, Error>)
    requires forall n :: 0 <= n < |run| ==> NamesDashboard(s, org, run[n])
    ensures (forall x :: x in run ==> |x| == 2 * ID_LENGTH)
    ensures r == Ok(Shown(s, Select(PassesIn(s, org, f), Tails(run))))
  {
    ghost var ks := Tails(run);
    var ds: seq<Dashboard> := [];
    var n := 0;
    while n < |run|
      invariant 0 <= n <= |run|
      invariant ds == Shown(s, Select(PassesIn(s, org, f), ks[..n]))
    {
      assert NamesDashboard(s, org, run[n]);
      var found := ReadIndexed(s, run[n]);
      match found {
        case Err(e) => return Err(e);
        case Ok(d) =>
          ShownStep(s, PassesIn(s, org, f), ks, n);
          if Accepts(f, d) { ds := ds + [d]; }
      }
      n := n + 1;
    }
    assert ks[..n] == ks;
    return Ok(ds);
  }

  /** The visitor of the scan: counts what the filter accepts, keeps what lies past the
      offset, stops at the limit. */
  method CollectPage(s: Store, run: seq<Key>, f: Filter, offset: int, limit: int) returns (ds: seq<Dashboard>)
    requires forall k :: k in run ==> k in s.dashboards
    ensures ds == Page(Shown(s, Select(Passes(s, f), run)), offset, limit)
  {
    ds := [];
    var count, n := 0, 0;
    while n < |run|
      invariant 0 <= n <= |run|
      invariant var shown := Shown(s, Select(Passes(s, f), run[..n]));
                count == |shown| && ds == Page(shown, offset, 0)
      invariant limit > 0 ==> |ds| < limit
    {
      assert run[n] in run;
      var d := s.dashboards[run[n]];
      ghost var shown := Shown(s, Select(Passes(s, f), run[..n]));
      ShownStep(s, Passes(s, f), run, n);
      PageStep(shown, d, offset);
      if Accepts(f, d) {
        if count >= offset { ds := ds + [d]; }
        count := count + 1;
      }
      n := n + 1;
      if limit > 0 && |ds| >= limit { break; }
    }
    PageCut(s, f, run, n, offset, limit);
  }

  /** Everything an unprefixed cursor over a bucket returns. */
  method BucketKeysInOrder<V>(bucket: map<Key, V>, descending: bool) returns (run: seq<Key>)
    requires [] !in bucket
    ensures run == if descending then Reverse(SortedKeys(bucket.Keys)) else SortedKeys(bucket.Keys)
    ensures forall k :: k in run <==> k in bucket
  {
    var keys := SortedKeys(bucket.Keys);
    var cfg := Config(if descending then Backwards else Forwards, None, false, None);
    var cur := ForwardCursor(keys, [], cfg);
    SelectAll(Wanted([], cfg), keys);
    run := Drain(cur);
    ReverseElements(keys);
  }

  lemma ReverseElements(s: seq<Key>)
    ensures forall k :: k in Reverse(s) <==> k in s
  {
    forall k | k in s
      ensures k in Reverse(s)
    {
      var i :| 0 <= i < |s| && s[i] == k;
      assert Reverse(s)[|s| - 1 - i] == k;
    }
  }

  /** putDashboardCellView for each created or updated cell in turn. */
  method PutEach(views: map<Key, View>, dash: Id, cells: seq<Cell>, created: bool) returns (r: map<Key, View>)
    requires Valid(dash) && CellsValid(cells)
    ensures r == PutViews(views, dash, cells, created)
  {
    r := views;
    var i := 0;
    while i < |cells|
      invariant 0 <= i <= |cells|
      invariant CellsValid(cells[..i]) && r == PutViews(views, dash, cells[..i], created)
    {
      assert cells[..i + 1][..i] == cells[..i] && cells[i] in cells;
      r := r[EncPair(dash, cells[i].id) := StoredView(cells[i], created)];
      i := i + 1;
    }
    assert cells[..i] == cells;
  }

  /** deleteDashboardCellView for each cell in turn. */
  method DropEach(views: map<Key, View>, dash: Id, cells: seq<Cell>) returns (r: map<Key, View>)
    requires Valid(dash) && CellsValid(cells)
    ensures r == DropViews(views, dash, cells)
  {
    r := views;
    var i := 0;
    while i < |cells|
      invariant 0 <= i <= |cells|
      invariant r == DropViews(views, dash, cells[..i])
    {
      assert cells[..i + 1] == cells[..i] + [cells[i]];
      r := r - {EncPair(dash, cells[i].id)};
      i := i + 1;
    }
    assert cells[..i] == cells;
  }

  lemma RunTail(s: Store, org: Id, run: seq<Key>, n: nat)
    requires Inv(s) && Valid(org) && run == OrgRun(s, org) && n < |run| && run[n] in s.orgIndex
    requires forall y :: y in run ==> |y| == 2 * ID_LENGTH
    requires forall k :: k in Tails(run) <==> k in s.dashboards && s.dashboards[k].org == org
    ensures NamesDashboard(s, org, run[n])
  {
    assert Tails(run)[n] in Tails(run);
    IndexKeyShape(s, run[n]);
  }

  lemma PageStep(ds: seq<Dashboard>, d: Dashboard, offset: int)
    ensures Page(ds + [d], offset, 0) == if |ds| >= offset then Page(ds, offset, 0) + [d] else Page(ds, offset, 0)
  {
  }

  /** Stopping at the limit loses nothing the page would have held. */
  lemma PageCut(s: Store, f: Filter, run: seq<Key>, n: nat, offset: int, limit: int)
    requires n <= |run|
    requires var ds := Page(Shown(s, Select(Passes(s, f), run[..n])), offset, 0);
             if n == |run| then limit > 0 ==> |ds| <= limit else limit > 0 && |ds| == limit
    ensures Page(Shown(s, Select(Passes(s, f), run)), offset, limit) ==
            Page(Shown(s, Select(Passes(s, f), run[..n])), offset, 0)
  {
    assert run == run[..n] + run[n..];
    SelectAppend(Passes(s, f), run[..n], run[n..]);
  }

  lemma ScanDirections(s: Store, f: Filter, run: seq<Key>, descending: bool)
    requires run == if descending then Reverse(SortedKeys(s.dashboards.Keys)) else SortedKeys(s.dashboards.Keys)
    ensures Shown(s, Select(Passes(s, f), run)) == if descending then Reverse(Scan(s, f)) else Scan(s, f)
  {
    if descending {
      SelectReverse(Passes(s, f), SortedKeys(s.dashboards.Keys));
      ShownReverse(s, Select(Passes(s, f), SortedKeys(s.dashboards.Keys)));
    }
  }

  lemma ShownReverse(s: Store, ks: seq<Key>)
    requires (forall k :: k in ks ==> k in s.dashboards) && forall k :: k in Reverse(ks) ==> k in s.dashboards
    ensures Shown(s, Reverse(ks)) == Reverse(Shown(s, ks))
  {
  }

  lemma {:induction false} SelectReverse(ok: Key -> bool, ks: seq<Key>)
    ensures Select(ok, Reverse(ks)) == Reverse(Select(ok, ks))
  {
    if ks == [] {
    } else {
      SelectReverse(ok, ks[1..]);
      SelectAppend(ok, Reverse(ks[1..]), [ks[0]]);
    }
  }

  /** Listing through the index and listing by a scan give the same dashboards in
      the same order. */
  method OrganizationListingMatchesScan(service: Service, f: Filter)
    returns (byIndex: Result<seq<Dashboard>, Error>, byScan: seq<Dashboard>)
    requires Inv(service.State()) && f.ids == [] && f.org.Some? && Valid(f.org.value)
    ensures byIndex == Ok(byScan) && byScan == Scan(service.State(), f)
  {
    byIndex := service.FindOrganizationDashboards(f.org.value, f);
    byScan := service.FindAllDashboards(f, false, 0, 0);
    OrganizationFilterIsScan(service.State(), f);
  }
}
