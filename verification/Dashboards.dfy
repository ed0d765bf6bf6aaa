/** Dashboards, the organization index beside them and the views of their cells. */
module Dashboards {
  import opened Wrappers
  import opened Bytes
  import opened Ids

  datatype View = View(id: Id, name: Key, properties: Option<Key>)

  datatype Cell = Cell(id: Id, x: int, y: int, w: int, h: int, view: Option<View>)

  datatype Dashboard = Dashboard(id: Id, org: Id, name: Key, description: Key, cells: seq<Cell>, owner: Option<Id>)

  datatype Error = DashboardNotFound | CellNotFound | ViewNotFound | Invalid | Conflict | BadId | Malformed

  /** The dashboard bucket, the organization index (keys only) and the cell-view bucket. */
  datatype Store = Store(dashboards: map<Key, Dashboard>, orgIndex: set<Key>, views: map<Key, View>)

  const EMPTY := Store(map[], {}, map[])

  // ---------------------------------------------------------------- invariant

  predicate CellsValid(cells: seq<Cell>) {
    forall c :: c in cells ==> Valid(c.id)
  }

  ghost predicate KeyedById(s: Store) {
    forall k :: k in s.dashboards ==>
      && Valid(s.dashboards[k].id) && k == Enc(s.dashboards[k].id)
      && Valid(s.dashboards[k].org) && CellsValid(s.dashboards[k].cells)
  }

  /** The index key of a dashboard; an id that cannot be encoded has none. */
  function IndexKey(d: Dashboard): Key {
    if Valid(d.org) && Valid(d.id) then EncPair(d.org, d.id) else []
  }

  ghost function IndexKeys(ds: map<Key, Dashboard>): set<Key> {
    set k | k in ds :: IndexKey(ds[k])
  }

  /** The index holds one organization-dashboard key for each dashboard and no other. */
  ghost predicate IndexExact(s: Store) {
    s.orgIndex == IndexKeys(s.dashboards)
  }

  /** Every cell of every dashboard has a stored view. */
  ghost predicate ViewsPresent(s: Store)
    requires KeyedById(s)
  {
    forall k, c :: k in s.dashboards && c in s.dashboards[k].cells ==> EncPair(s.dashboards[k].id, c.id) in s.views
  }

  ghost predicate Inv(s: Store) {
    KeyedById(s) && IndexExact(s) && ViewsPresent(s)
  }

  lemma EmptyInv()
    ensures Inv(EMPTY)
  {
  }

  /** Nothing about the views of other dashboards differs. */
  ghost predicate OtherViewsUntouched(v: map<Key, View>, w: map<Key, View>, dash: Id) {
    forall a, b :: Valid(a) && Valid(b) && a != dash ==>
      var k := EncPair(a, b);
      (k in v <==> k in w) && (k in v ==> v[k] == w[k])
  }

  // --------------------------------------------------------------- cell views

  const BLANK := View(0, [], None)

  /** The view stored for a cell: a created cell without one gets a blank view with
      the cell's id, an updated one the zero view. */
  function StoredView(c: Cell, created: bool): View {
    if c.view.Some? then c.view.value else if created then BLANK.(id := c.id) else BLANK
  }

  function PutViews(views: map<Key, View>, dash: Id, cells: seq<Cell>, created: bool): (r: map<Key, View>)
    requires Valid(dash) && CellsValid(cells)
    ensures forall c :: c in cells ==> EncPair(dash, c.id) in r
    ensures OtherViewsUntouched(views, r, dash)
  {
    if cells == [] then views
    else
      var c := cells[|cells| - 1];
      var init := PutViews(views, dash, cells[..|cells| - 1], created);
      PairMisses(dash, c.id);
      assert cells == cells[..|cells| - 1] + [c];
      init[EncPair(dash, c.id) := StoredView(c, created)]
  }

  function DropViews(views: map<Key, View>, dash: Id, cells: seq<Cell>): (r: map<Key, View>)
    requires Valid(dash) && CellsValid(cells)
    ensures OtherViewsUntouched(views, r, dash)
    ensures forall k :: k in r ==> k in views && r[k] == views[k]
  {
    var gone := set c | c in cells :: EncPair(dash, c.id);
    assert OtherViewsUntouched(views, views - gone, dash) by {
      forall a, b | Valid(a) && Valid(b) && a != dash
        ensures EncPair(a, b) !in gone
      {
        if c :| c in cells && EncPair(a, b) == EncPair(dash, c.id) { EncPairInjective(a, b, dash, c.id); }
      }
    }
    views - gone
  }

  lemma PairMisses(dash: Id, cell: Id)
    requires Valid(dash) && Valid(cell)
    ensures forall a, b :: Valid(a) && Valid(b) && EncPair(a, b) == EncPair(dash, cell) ==> a == dash && b == cell
  {
    forall a, b | Valid(a) && Valid(b) && EncPair(a, b) == EncPair(dash, cell)
      ensures a == dash && b == cell
    {
      EncPairInjective(a, b, dash, cell);
    }
  }

  // --------------------------------------------------------------- operations

  /** A cell that has just been given an id; its view carries the same id. */
  function WithId(c: Cell, id: Id): Cell {
    c.(id := id, view := if c.view.Some? then Some(c.view.value.(id := id)) else None)
  }

  function Numbered(cells: seq<Cell>, ids: seq<Id>): (r: seq<Cell>)
    requires |ids| == |cells|
    ensures |r| == |cells| && forall i :: 0 <= i < |r| ==> r[i] == WithId(cells[i], ids[i])
  {
    seq(|cells|, i requires 0 <= i < |cells| => WithId(cells[i], ids[i]))
  }

  /** Cells without an id take a generated one; the others stay as they are. */
  function Completed(cells: seq<Cell>, ids: seq<Id>): (r: seq<Cell>)
    requires |ids| == |cells|
    ensures |r| == |cells|
    ensures forall i :: 0 <= i < |r| ==> r[i] == if Valid(cells[i].id) then cells[i] else WithId(cells[i], ids[i])
  {
    seq(|cells|, i requires 0 <= i < |cells| => if Valid(cells[i].id) then cells[i] else WithId(cells[i], ids[i]))
  }

  /** A cell as its JSON is read back: of its view only the name remains, beside empty
      properties and a zero id. */
  function RereadCell(c: Cell): Cell {
    c.(view := if c.view.Some? then Some(View(0, c.view.value.name, Some([]))) else None)
  }

  /** The cells of a stored dashboard. */
  function Reread(cells: seq<Cell>): (r: seq<Cell>)
    ensures |r| == |cells| && forall i :: 0 <= i < |r| ==> r[i] == RereadCell(cells[i])
  {
    seq(|cells|, i requires 0 <= i < |cells| => RereadCell(cells[i]))
  }

  lemma RereadIds(cells: seq<Cell>)
    ensures forall c :: c in Reread(cells) ==> exists was :: was in cells && was.id == c.id
    ensures CellsValid(cells) ==> CellsValid(Reread(cells))
  {
    forall c | c in Reread(cells)
      ensures exists was :: was in cells && was.id == c.id
    {
      var i :| 0 <= i < |cells| && Reread(cells)[i] == c;
      assert cells[i] in cells;
    }
  }

  function Find(s: Store, id: Id): Result<Dashboard, Error> {
    if !Valid(id) then Err(BadId)
    else if Enc(id) in s.dashboards then Ok(s.dashboards[Enc(id)])
    else Err(DashboardNotFound)
  }

  function CreateStep(s: Store, given: Dashboard, id: Id, cellIds: seq<Id>): (Store, Option<Error>)
    requires |cellIds| == |given.cells|
  {
    var d := given.(id := id, cells := Numbered(given.cells, cellIds));
    if !Valid(id) || !Valid(d.org) || !CellsValid(d.cells) then (s, Some(BadId))
    else (Store(s.dashboards[Enc(id) := d.(cells := Reread(d.cells))], s.orgIndex + {EncPair(d.org, id)},
                PutViews(s.views, id, d.cells, true)), None)
  }

  function CellIds(cells: seq<Cell>): set<Id> {
    set c | c in cells :: c.id
  }

  /** Position of the first cell with this id, or -1. */
  function IndexOf(cells: seq<Cell>, id: Id): (i: int)
    ensures -1 <= i < |cells|
    ensures i >= 0 ==> cells[i].id == id && forall j :: 0 <= j < i ==> cells[j].id != id
    ensures i < 0 ==> forall c :: c in cells ==> c.id != id
  {
    if cells == [] then -1
    else if cells[0].id == id then 0
    else
      var i := IndexOf(cells[1..], id);
      if i < 0 then -1 else i + 1
  }

  /** The first cell that cannot be replaced decides the error. */
  function ReplaceError(known: set<Id>, cs: seq<Cell>): (e: Option<Error>)
    ensures e.None? <==> forall c :: c in cs ==> Valid(c.id) && c.id in known
  {
    if cs == [] then None
    else if !Valid(cs[0].id) then Some(Invalid)
    else if cs[0].id !in known then Some(Conflict)
    else ReplaceError(known, cs[1..])
  }

  function ReplaceStep(s: Store, id: Id, cs: seq<Cell>): (Store, Option<Error>) {
    var d := Find(s, id);
    if d.Err? then (s, Some(d.error))
    else
      var e := ReplaceError(CellIds(d.value.cells), cs);
      if e.Some? then (s, e)
      else (s.(dashboards := s.dashboards[Enc(id) := d.value.(cells := Reread(cs))]), None)
  }

  function AddCellStep(s: Store, id: Id, cell: Cell, cellId: Id, view: Option<View>): (Store, Option<Error>) {
    var d := Find(s, id);
    if d.Err? then (s, Some(d.error))
    else if !Valid(cellId) then (s, Some(BadId))
    else
      var v := (if view.Some? then view.value else BLANK).(id := cellId);
      (s.(dashboards := s.dashboards[Enc(id) := d.value.(cells := d.value.cells + [RereadCell(cell.(id := cellId))])],
          views := s.views[EncPair(id, cellId) := v]), None)
  }

  function Without(cells: seq<Cell>, i: nat): seq<Cell>
    requires i < |cells|
  {
    cells[..i] + cells[i + 1..]
  }

  function RemoveCellStep(s: Store, id: Id, cellId: Id): (Store, Option<Error>) {
    var d := Find(s, id);
    if d.Err? then (s, Some(d.error))
    else
      var i := IndexOf(d.value.cells, cellId);
      if i < 0 then (s, Some(CellNotFound))
      else if !Valid(cellId) then (s, Some(BadId))
      else
        (s.(dashboards := s.dashboards[Enc(id) := d.value.(cells := Without(d.value.cells, i))],
            views := s.views - {EncPair(id, cellId)}), None)
  }

  datatype CellUpdate = CellUpdate(x: Option<int>, y: Option<int>, w: Option<int>, h: Option<int>)

  function Or<T>(o: Option<T>, default: T): T {
    if o.Some? then o.value else default
  }

  function ApplyCell(u: CellUpdate, c: Cell): Cell {
    c.(x := Or(u.x, c.x), y := Or(u.y, c.y), w := Or(u.w, c.w), h := Or(u.h, c.h))
  }

  function UpdateCellStep(s: Store, id: Id, cellId: Id, u: CellUpdate): (Store, Option<Error>) {
    var d := Find(s, id);
    if u == CellUpdate(None, None, None, None) then (s, Some(Invalid))
    else if d.Err? then (s, Some(d.error))
    else
      var i := IndexOf(d.value.cells, cellId);
      if i < 0 then (s, Some(CellNotFound))
      else
        var cells := d.value.cells[i := ApplyCell(u, d.value.cells[i])];
        (s.(dashboards := s.dashboards[Enc(id) := d.value.(cells := cells)]), None)
  }

  /** `properties` None is a nil interface, Some([]) the empty properties. */
  function UpdateViewStep(s: Store, dash: Id, cell: Id, name: Option<Key>, properties: Option<Key>):
    (Store, Option<Error>)
  {
    if !Valid(dash) || !Valid(cell) then (s, Some(BadId))
    else
      var k := EncPair(dash, cell);
      if k !in s.views then (s, Some(ViewNotFound))
      else if name.None? && properties == Some([]) then (s, Some(Invalid))
      else
        var v := s.views[k];
        (s.(views := s.views[k := v.(name := Or(name, v.name),
                                     properties := if properties.Some? then properties else v.properties)]), None)
  }

  datatype DashboardUpdate = DashboardUpdate(name: Option<Key>, description: Option<Key>, cells: Option<seq<Cell>>)

  function UpdateStep(s: Store, id: Id, u: DashboardUpdate, ids: seq<Id>): (Store, Option<Error>)
    requires u.cells.Some? ==> |ids| == |u.cells.value|
  {
    var d := Find(s, id);
    if u.name.None? && u.description.None? then (s, Some(Invalid))
    else if d.Err? then (s, Some(d.error))
    else
      var named := d.value.(name := Or(u.name, d.value.name), description := Or(u.description, d.value.description));
      if u.cells.None? then (s.(dashboards := s.dashboards[Enc(id) := named]), None)
      else
        var cells := Completed(u.cells.value, ids);
        if !CellsValid(d.value.cells) || !CellsValid(cells) then (s, Some(BadId))
        else
          (s.(dashboards := s.dashboards[Enc(id) := named.(cells := Reread(cells))],
              views := PutViews(DropViews(s.views, id, d.value.cells), id, cells, false)), None)
  }

  function DeleteStep(s: Store, id: Id): (Store, Option<Error>) {
    var d := Find(s, id);
    if d.Err? then (s, Some(d.error))
    else if !Valid(d.value.org) || !Valid(d.value.id) || !CellsValid(d.value.cells) then (s, Some(BadId))
    else (Store(s.dashboards - {Enc(id)}, s.orgIndex - {EncPair(d.value.org, d.value.id)},
                DropViews(s.views, d.value.id, d.value.cells)), None)
  }

  // ------------------------------------------------- when the invariant is kept

  /** Storing a dashboard keeps every cell's view, as long as its own cells have
      views and other dashboards' views stay. */
  lemma PutKeepsViews(s: Store, t: Store, d: Dashboard)
    requires KeyedById(s) && KeyedById(t) && ViewsPresent(s) && Valid(d.id) && CellsValid(d.cells)
    requires t.dashboards == s.dashboards[Enc(d.id) := d]
    requires OtherViewsUntouched(s.views, t.views, d.id)
    requires forall c :: c in d.cells ==> EncPair(d.id, c.id) in t.views
    ensures ViewsPresent(t)
  {
    forall k, c | k in t.dashboards && c in t.dashboards[k].cells
      ensures EncPair(t.dashboards[k].id, c.id) in t.views
    {
      if k != Enc(d.id) {
        assert t.dashboards[k].id != d.id;
        assert EncPair(s.dashboards[k].id, c.id) in s.views;
      }
    }
  }

  lemma PutKeepsIndex(s: Store, t: Store, k: Key)
    requires IndexExact(s) && k in t.dashboards && t.dashboards == s.dashboards[k := t.dashboards[k]]
    requires k in s.dashboards ==> IndexKey(s.dashboards[k]) == IndexKey(t.dashboards[k])
    requires t.orgIndex == s.orgIndex + {IndexKey(t.dashboards[k])}
    ensures IndexExact(t)
  {
    assert forall j :: j in s.dashboards ==> IndexKey(t.dashboards[j]) == IndexKey(s.dashboards[j]);
    assert forall j :: j in t.dashboards ==> j == k || j in s.dashboards;
    assert IndexKeys(t.dashboards) == IndexKeys(s.dashboards) + {IndexKey(t.dashboards[k])} by {
      forall x | x in IndexKeys(s.dashboards)
        ensures x in IndexKeys(t.dashboards)
      {
        var j :| j in s.dashboards && x == IndexKey(s.dashboards[j]);
        assert j in t.dashboards;
      }
    }
  }

  /** Replacing one stored dashboard by one of the same organization keeps the
      invariant under the same conditions. */
  lemma PutKeepsInv(s: Store, t: Store, d: Dashboard)
    requires Inv(s) && Valid(d.id) && Valid(d.org) && CellsValid(d.cells)
    requires Enc(d.id) in s.dashboards && s.dashboards[Enc(d.id)].org == d.org
    requires t.dashboards == s.dashboards[Enc(d.id) := d] && t.orgIndex == s.orgIndex
    requires OtherViewsUntouched(s.views, t.views, d.id)
    requires forall c :: c in d.cells ==> EncPair(d.id, c.id) in t.views
    ensures Inv(t)
  {
    PutKeepsViews(s, t, d);
    EncInjective(d.id, s.dashboards[Enc(d.id)].id);
    PutKeepsIndex(s, t, Enc(d.id));
  }

  lemma FindStored(s: Store, id: Id)
    requires KeyedById(s) && Find(s, id).Ok?
    ensures Find(s, id).value.id == id && Valid(Find(s, id).value.org) && CellsValid(Find(s, id).value.cells)
  {
    EncInjective(id, Find(s, id).value.id);
  }

  /** A successful Create keeps the invariant exactly when its id is new or already
      belongs to a dashboard of the same organization. */
  lemma CreateKeepsInvariantIff(s: Store, given: Dashboard, id: Id, cellIds: seq<Id>)
    requires Inv(s) && |cellIds| == |given.cells| && CreateStep(s, given, id, cellIds).1.None?
    ensures Inv(CreateStep(s, given, id, cellIds).0) <==>
            (Enc(id) in s.dashboards ==> s.dashboards[Enc(id)].org == given.org)
  {
    var t := CreateStep(s, given, id, cellIds).0;
    var d := given.(id := id, cells := Reread(Numbered(given.cells, cellIds)));
    RereadIds(Numbered(given.cells, cellIds));
    if Enc(id) in s.dashboards { FindStored(s, id); }
    if Enc(id) in s.dashboards && s.dashboards[Enc(id)].org != given.org {
      StaleIndexKey(s, t, id, given.org);
    } else {
      PutKeepsViews(s, t, d);
      PutKeepsIndex(s, t, Enc(id));
    }
  }

  /** A key left over from another organization makes the index inexact. */
  lemma StaleIndexKey(s: Store, t: Store, id: Id, org: Id)
    requires KeyedById(s) && IndexExact(s) && Valid(id) && Valid(org)
    requires Enc(id) in s.dashboards && s.dashboards[Enc(id)].org != org
    requires Enc(id) in t.dashboards && t.dashboards[Enc(id)].org == org && s.orgIndex <= t.orgIndex
    ensures !KeyedById(t) || !IndexExact(t)
  {
    var o := s.dashboards[Enc(id)].org;
    FindStored(s, id);
    var x := IndexKey(s.dashboards[Enc(id)]);
    assert x in s.orgIndex;
    if KeyedById(t) && x in IndexKeys(t.dashboards) {
      var k :| k in t.dashboards && x == IndexKey(t.dashboards[k]);
      EncPairInjective(o, id, t.dashboards[k].org, t.dashboards[k].id);
    }
  }

  lemma ReplaceKeepsInv(s: Store, id: Id, cs: seq<Cell>)
    requires Inv(s)
    ensures Inv(ReplaceStep(s, id, cs).0)
    ensures ReplaceStep(s, id, cs).0.views == s.views
  {
    var t := ReplaceStep(s, id, cs).0;
    if t != s {
      FindStored(s, id);
      var d := Find(s, id).value;
      RereadIds(cs);
      forall c | c in cs
        ensures EncPair(id, c.id) in t.views
      {
        var was :| was in d.cells && was.id == c.id;
      }
      PutKeepsInv(s, t, d.(cells := Reread(cs)));
    }
  }

  lemma AddCellKeepsInv(s: Store, id: Id, cell: Cell, cellId: Id, view: Option<View>)
    requires Inv(s)
    ensures var t := AddCellStep(s, id, cell, cellId, view).0;
            Inv(t) && (Valid(id) ==> OtherViewsUntouched(s.views, t.views, id))
  {
    var t := AddCellStep(s, id, cell, cellId, view).0;
    if AddCellStep(s, id, cell, cellId, view).1.None? {
      FindStored(s, id);
      PairMisses(id, cellId);
      PutKeepsInv(s, t, t.dashboards[Enc(id)]);
    }
  }

  /** How often an id occurs among the cells. */
  function Count(cells: seq<Cell>, id: Id): nat {
    if cells == [] then 0 else (if cells[0].id == id then 1 else 0) + Count(cells[1..], id)
  }

  lemma {:induction false} CountPositive(cells: seq<Cell>, id: Id)
    ensures Count(cells, id) > 0 <==> exists c :: c in cells && c.id == id
  {
    if cells == [] {
    } else {
      CountPositive(cells[1..], id);
      assert cells == [cells[0]] + cells[1..];
      if cells[0].id == id { assert cells[0] in cells; }
      if c :| c in cells[1..] && c.id == id { assert c in cells; }
    }
  }

  lemma {:induction false} CountAppend(a: seq<Cell>, b: seq<Cell>, id: Id)
    ensures Count(a + b, id) == Count(a, id) + Count(b, id)
  {
    if a == [] {
      assert a + b == b;
    } else {
      assert (a + b)[1..] == a[1..] + b;
      CountAppend(a[1..], b, id);
    }
  }

  /** Removing a cell keeps the invariant exactly when no other cell of the dashboard
      has its id: the view goes with the first, and a second one would lose it. */
  lemma RemoveCellKeepsInvariantIff(s: Store, id: Id, cellId: Id)
    requires Inv(s) && RemoveCellStep(s, id, cellId).1.None?
    ensures Inv(RemoveCellStep(s, id, cellId).0) <==> Count(Find(s, id).value.cells, cellId) == 1
  {
    var t := RemoveCellStep(s, id, cellId).0;
    FindStored(s, id);
    var cells := Find(s, id).value.cells;
    var i := IndexOf(cells, cellId);
    var rest := cells[..i] + cells[i + 1..];
    RemovedCount(cells, i, cellId);
    CountPositive(rest, cellId);
    if Count(rest, cellId) > 0 {
      var c :| c in rest && c.id == cellId;
      MissingView(t, id, c);
    } else {
      RemoveKeepsInv(s, t, id, cellId, i);
    }
  }

  lemma RemoveCellFrame(s: Store, id: Id, cellId: Id)
    requires RemoveCellStep(s, id, cellId).1.None?
    ensures OtherViewsUntouched(s.views, RemoveCellStep(s, id, cellId).0.views, id)
  {
    PairMisses(id, cellId);
  }

  lemma MissingView(t: Store, id: Id, c: Cell)
    requires Find(t, id).Ok? && c in Find(t, id).value.cells && Find(t, id).value.id == id && Valid(c.id)
    requires EncPair(id, c.id) !in t.views
    ensures !Inv(t)
  {
    if KeyedById(t) { assert Enc(id) in t.dashboards; }
  }

  lemma RemovedCount(cells: seq<Cell>, i: nat, id: Id)
    requires i < |cells| && cells[i].id == id
    ensures Count(cells, id) == 1 + Count(cells[..i] + cells[i + 1..], id)
  {
    assert cells == cells[..i] + [cells[i]] + cells[i + 1..];
    CountAppend(cells[..i] + [cells[i]], cells[i + 1..], id);
    CountAppend(cells[..i], [cells[i]], id);
    CountAppend(cells[..i], cells[i + 1..], id);
  }

  lemma RemoveKeepsInv(s: Store, t: Store, id: Id, cellId: Id, i: nat)
    requires Inv(s) && Find(s, id).Ok? && Valid(cellId) && i < |Find(s, id).value.cells|
    requires var cells := Find(s, id).value.cells[..i] + Find(s, id).value.cells[i + 1..];
             && (forall c :: c in cells ==> c.id != cellId)
             && t == s.(dashboards := s.dashboards[Enc(id) := Find(s, id).value.(cells := cells)],
                        views := s.views - {EncPair(id, cellId)})
    ensures Inv(t)
  {
    FindStored(s, id);
    PairMisses(id, cellId);
    var d := Find(s, id).value;
    var cells := d.cells[..i] + d.cells[i + 1..];
    forall c | c in cells
      ensures EncPair(id, c.id) in t.views && Valid(c.id)
    {
      assert c in d.cells;
    }
    PutKeepsInv(s, t, d.(cells := cells));
  }

  lemma UpdateCellKeepsInv(s: Store, id: Id, cellId: Id, u: CellUpdate)
    requires Inv(s)
    ensures var t := UpdateCellStep(s, id, cellId, u).0;
            Inv(t) && t.views == s.views
  {
    var t := UpdateCellStep(s, id, cellId, u).0;
    if UpdateCellStep(s, id, cellId, u).1.None? {
      FindStored(s, id);
      var d := Find(s, id).value;
      var i := IndexOf(d.cells, cellId);
      forall c | c in t.dashboards[Enc(id)].cells
        ensures exists was :: was in d.cells && was.id == c.id
      {
        if c == ApplyCell(u, d.cells[i]) { assert d.cells[i] in d.cells; } else { assert c in d.cells; }
      }
      PutKeepsInv(s, t, t.dashboards[Enc(id)]);
    }
  }

  lemma UpdateViewKeepsInv(s: Store, dash: Id, cell: Id, name: Option<Key>, properties: Option<Key>)
    requires Inv(s)
    ensures var t := UpdateViewStep(s, dash, cell, name, properties).0;
            Inv(t) && (Valid(dash) ==> OtherViewsUntouched(s.views, t.views, dash))
  {
    if Valid(dash) && Valid(cell) { PairMisses(dash, cell); }
  }

  lemma UpdateKeepsInv(s: Store, id: Id, u: DashboardUpdate, ids: seq<Id>)
    requires Inv(s) && (u.cells.Some? ==> |ids| == |u.cells.value|)
    ensures var t := UpdateStep(s, id, u, ids).0;
            Inv(t) && (Valid(id) ==> OtherViewsUntouched(s.views, t.views, id))
  {
    var t := UpdateStep(s, id, u, ids).0;
    if UpdateStep(s, id, u, ids).1.None? {
      FindStored(s, id);
      var was := Find(s, id).value;
      var d := t.dashboards[Enc(id)];
      if u.cells.Some? {
        RereadIds(Completed(u.cells.value, ids));
        UntouchedTransitive(s.views, DropViews(s.views, id, was.cells), t.views, id);
      }
      PutKeepsInv(s, t, d);
    }
  }

  lemma UntouchedTransitive(u: map<Key, View>, v: map<Key, View>, w: map<Key, View>, dash: Id)
    requires OtherViewsUntouched(u, v, dash) && OtherViewsUntouched(v, w, dash)
    ensures OtherViewsUntouched(u, w, dash)
  {
    forall a, b | Valid(a) && Valid(b) && a != dash
      ensures var k := EncPair(a, b);
              (k in u <==> k in w) && (k in u ==> u[k] == w[k])
    {
      var k := EncPair(a, b);
      assert (k in u <==> k in v) && (k in v <==> k in w);
    }
  }

  lemma DeleteKeepsInv(s: Store, id: Id)
    requires Inv(s)
    ensures var t := DeleteStep(s, id).0;
            Inv(t) && (Valid(id) ==> OtherViewsUntouched(s.views, t.views, id))
  {
    var t := DeleteStep(s, id).0;
    if DeleteStep(s, id).1.None? {
      FindStored(s, id);
      DeleteKeepsIndex(s, t, id);
      forall k, c | k in t.dashboards && c in t.dashboards[k].cells
        ensures EncPair(t.dashboards[k].id, c.id) in t.views
      {
        assert t.dashboards[k].id != id;
        assert EncPair(s.dashboards[k].id, c.id) in s.views;
      }
    }
  }

  lemma DeleteKeepsIndex(s: Store, t: Store, id: Id)
    requires KeyedById(s) && KeyedById(t) && IndexExact(s) && Find(s, id).Ok?
    requires t.dashboards == s.dashboards - {Enc(id)}
    requires t.orgIndex == s.orgIndex - {EncPair(Find(s, id).value.org, id)}
    ensures IndexExact(t)
  {
    var o := Find(s, id).value.org;
    FindStored(s, id);
    forall k | k in t.dashboards
      ensures IndexKey(t.dashboards[k]) != EncPair(o, id)
    {
      var d := t.dashboards[k];
      if EncPair(d.org, d.id) == EncPair(o, id) { EncPairInjective(d.org, d.id, o, id); }
    }
    forall x
      ensures x in IndexKeys(t.dashboards) <==> x in t.orgIndex
    {
      if x in IndexKeys(t.dashboards) {
        var k :| k in t.dashboards && x == IndexKey(t.dashboards[k]);
        assert k in s.dashboards;
      }
      if x in t.orgIndex {
        var k :| k in s.dashboards && x == IndexKey(s.dashboards[k]);
        assert k in t.dashboards;
      }
    }
  }
}
