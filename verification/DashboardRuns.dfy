/** Whole runs of dashboard and cell operations. */
module DashboardRuns {
  import opened Wrappers
  import opened Bytes
  import opened Ids
  import opened Dashboards

  predicate Distinct(cells: seq<Cell>) {
    forall i, j :: 0 <= i < j < |cells| ==> cells[i].id != cells[j].id
  }

  ghost predicate CellsDistinct(s: Store) {
    forall k :: k in s.dashboards ==> Distinct(s.dashboards[k].cells)
  }

  /** One call, with the ids the generator handed out for it. */
  datatype Call =
    | Create(d: Dashboard, id: Id, cellIds: seq<Id>)
    | Replace(id: Id, cells: seq<Cell>)
    | AddCell(id: Id, cell: Cell, cellId: Id, view: Option<View>)
    | RemoveCell(id: Id, cellId: Id)
    | UpdateCell(id: Id, cellId: Id, change: CellUpdate)
    | UpdateView(id: Id, cellId: Id, name: Option<Key>, properties: Option<Key>)
    | Update(id: Id, dashboard: DashboardUpdate, ids: seq<Id>)
    | Delete(id: Id)

  /** An id is generated for every cell that may need one. */
  predicate Shaped(c: Call) {
    (c.Create? ==> |c.cellIds| == |c.d.cells|)
    && (c.Update? && c.dashboard.cells.Some? ==> |c.ids| == |c.dashboard.cells.value|)
  }

  /** Generated ids are fresh, and the cells handed in have different ids. */
  predicate Proper(s: Store, c: Call)
    requires Shaped(c)
  {
    match c
    case Create(d, id, cellIds) =>
      && (Valid(id) ==> Enc(id) !in s.dashboards)
      && forall i, j :: 0 <= i < j < |cellIds| ==> cellIds[i] != cellIds[j]
    case Replace(_, cells) => Distinct(cells)
    case AddCell(id, _, cellId, _) =>
      Find(s, id).Ok? ==> forall c :: c in Find(s, id).value.cells ==> c.id != cellId
    case Update(_, u, ids) => u.cells.Some? ==> Distinct(Completed(u.cells.value, ids))
    case RemoveCell(_, _) => true
    case UpdateCell(_, _, _) => true
    case UpdateView(_, _, _, _) => true
    case Delete(_) => true
  }

  function Apply(s: Store, c: Call): Store
    requires Shaped(c)
  {
    match c
    case Create(d, id, cellIds) => CreateStep(s, d, id, cellIds).0
    case Replace(id, cells) => ReplaceStep(s, id, cells).0
    case AddCell(id, cell, cellId, view) => AddCellStep(s, id, cell, cellId, view).0
    case RemoveCell(id, cellId) => RemoveCellStep(s, id, cellId).0
    case UpdateCell(id, cellId, u) => UpdateCellStep(s, id, cellId, u).0
    case UpdateView(id, cellId, name, properties) => UpdateViewStep(s, id, cellId, name, properties).0
    case Update(id, u, ids) => UpdateStep(s, id, u, ids).0
    case Delete(id) => DeleteStep(s, id).0
  }

  lemma {:induction false} DistinctCount(cells: seq<Cell>, id: Id)
    requires Distinct(cells)
    ensures Count(cells, id) <= 1
  {
    if cells == [] {
    } else {
      DistinctCount(cells[1..], id);
      if cells[0].id == id {
        assert forall j :: 0 <= j < |cells[1..]| ==> cells[1..][j].id == cells[j + 1].id != id;
        CountPositive(cells[1..], id);
      }
    }
  }

  lemma RemovedStaysDistinct(cells: seq<Cell>, i: nat)
    requires Distinct(cells) && i < |cells|
    ensures Distinct(cells[..i] + cells[i + 1..])
  {
    var rest := cells[..i] + cells[i + 1..];
    forall a, b | 0 <= a < b < |rest|
      ensures rest[a].id != rest[b].id
    {
      var x, y := if a < i then a else a + 1, if b < i then b else b + 1;
      assert rest[a] == cells[x] && rest[b] == cells[y];
    }
  }

  lemma RereadDistinct(cells: seq<Cell>)
    requires Distinct(cells)
    ensures Distinct(Reread(cells))
  {
  }

  /** Storing a dashboard with differing cells. */
  lemma PutKeepsDistinct(s: Store, t: Store, k: Key, d: Dashboard)
    requires CellsDistinct(s) && Distinct(d.cells) && t.dashboards == s.dashboards[k := d]
    ensures CellsDistinct(t)
  {
  }

  lemma CreateKeepsDistinct(s: Store, d: Dashboard, id: Id, cellIds: seq<Id>)
    requires CellsDistinct(s) && |cellIds| == |d.cells|
    requires forall i, j :: 0 <= i < j < |cellIds| ==> cellIds[i] != cellIds[j]
    ensures CellsDistinct(CreateStep(s, d, id, cellIds).0)
  {
    var (t, e) := CreateStep(s, d, id, cellIds);
    if e.None? {
      RereadDistinct(Numbered(d.cells, cellIds));
      PutKeepsDistinct(s, t, Enc(id), t.dashboards[Enc(id)]);
    }
  }

  lemma UpdateKeepsDistinct(s: Store, id: Id, u: DashboardUpdate, ids: seq<Id>)
    requires CellsDistinct(s) && Shaped(Update(id, u, ids)) && Proper(s, Update(id, u, ids))
    ensures CellsDistinct(UpdateStep(s, id, u, ids).0)
  {
    var (t, e) := UpdateStep(s, id, u, ids);
    if e.None? {
      if u.cells.Some? { RereadDistinct(Completed(u.cells.value, ids)); }
      PutKeepsDistinct(s, t, Enc(id), t.dashboards[Enc(id)]);
    }
  }

  lemma ProperCallKeepsDistinct(s: Store, c: Call)
    requires CellsDistinct(s) && Shaped(c) && Proper(s, c)
    ensures CellsDistinct(Apply(s, c))
  {
    match c
    case Create(d, id, cellIds) => CreateKeepsDistinct(s, d, id, cellIds);
    case RemoveCell(id, cellId) =>
      if RemoveCellStep(s, id, cellId).1.None? {
        var cells := Find(s, id).value.cells;
        RemovedStaysDistinct(cells, IndexOf(cells, cellId));
      }
    case UpdateCell(id, cellId, u) =>
      if UpdateCellStep(s, id, cellId, u).1.None? {
        var cells := Find(s, id).value.cells;
        assert forall i :: 0 <= i < |cells| ==> ApplyCell(u, cells[i]).id == cells[i].id;
      }
    case Replace(_, cells) => RereadDistinct(cells);
    case AddCell(_, _, _, _) =>
    case UpdateView(_, _, _, _) =>
    case Update(id, u, ids) => UpdateKeepsDistinct(s, id, u, ids);
    case Delete(_) =>
  }

  /** A proper call keeps the index exact and a view under every cell. */
  lemma ProperCallKeepsInvariant(s: Store, c: Call)
    requires Inv(s) && CellsDistinct(s) && Shaped(c) && Proper(s, c)
    ensures Inv(Apply(s, c))
  {
    match c
    case Create(d, id, cellIds) =>
      if CreateStep(s, d, id, cellIds).1.None? { CreateKeepsInvariantIff(s, d, id, cellIds); }
    case Replace(id, cells) => ReplaceKeepsInv(s, id, cells);
    case AddCell(id, cell, cellId, view) => AddCellKeepsInv(s, id, cell, cellId, view);
    case RemoveCell(id, cellId) =>
      if RemoveCellStep(s, id, cellId).1.None? {
        var cells := Find(s, id).value.cells;
        DistinctCount(cells, cellId);
        RemovedCount(cells, IndexOf(cells, cellId), cellId);
        RemoveCellKeepsInvariantIff(s, id, cellId);
      }
    case UpdateCell(id, cellId, u) => UpdateCellKeepsInv(s, id, cellId, u);
    case UpdateView(id, cellId, name, properties) => UpdateViewKeepsInv(s, id, cellId, name, properties);
    case Update(id, u, ids) => UpdateKeepsInv(s, id, u, ids);
    case Delete(id) => DeleteKeepsInv(s, id);
  }

  /** Whatever a call does, proper or not, the views of every dashboard other than
      the one it names stay exactly as they were. */
  lemma OtherDashboardsKeepTheirViews(s: Store, c: Call)
    requires Inv(s) && Shaped(c)
    ensures OtherViewsUntouched(s.views, Apply(s, c).views, c.id)
  {
    match c
    case Create(d, id, cellIds) =>
    case Replace(id, cells) => ReplaceKeepsInv(s, id, cells);
    case AddCell(id, cell, cellId, view) => AddCellKeepsInv(s, id, cell, cellId, view);
    case RemoveCell(id, cellId) =>
      if RemoveCellStep(s, id, cellId).1.None? { RemoveCellFrame(s, id, cellId); }
    case UpdateCell(id, cellId, u) => UpdateCellKeepsInv(s, id, cellId, u);
    case UpdateView(id, cellId, name, properties) => UpdateViewKeepsInv(s, id, cellId, name, properties);
    case Update(id, u, ids) => UpdateKeepsInv(s, id, u, ids);
    case Delete(id) => DeleteKeepsInv(s, id);
  }

  /** What every store of a run satisfies. */
  ghost predicate Good(s: Store) {
    Inv(s) && CellsDistinct(s)
  }

  /** What one call promises, whatever it is given. */
  lemma CallKeeps(s: Store, c: Call)
    requires Shaped(c)
    ensures Good(s) && Proper(s, c) ==> Good(Apply(s, c))
    ensures Inv(s) ==> OtherViewsUntouched(s.views, Apply(s, c).views, c.id)
  {
    if Good(s) && Proper(s, c) {
      ProperCallKeepsInvariant(s, c);
      ProperCallKeepsDistinct(s, c);
    }
    if Inv(s) { OtherDashboardsKeepTheirViews(s, c); }
  }

  ghost predicate Run(states: seq<Store>, calls: seq<Call>) {
    && |states| == |calls| + 1 && states[0] == EMPTY
    && forall i :: 0 <= i < |calls| ==>
         Shaped(calls[i]) && Proper(states[i], calls[i]) && states[i + 1] == Apply(states[i], calls[i])
  }

  /** Every store a run goes through has an exact index and a view for every cell. */
  lemma {:induction false} EveryRunKeepsInvariant(states: seq<Store>, calls: seq<Call>, n: nat)
    requires Run(states, calls) && n < |states|
    ensures Good(states[n])
  {
    if n == 0 {
      EmptyInv();
    } else {
      EveryRunKeepsInvariant(states, calls, n - 1);
      CallKeeps(states[n - 1], calls[n - 1]);
    }
  }

  /** Replace accepts one cell twice; removing it once then leaves the other without
      its view. */
  lemma DuplicateCellLosesItsView(s: Store, id: Id, c: Cell)
    requires Inv(s) && Find(s, id).Ok? && c in Find(s, id).value.cells
    ensures var t := ReplaceStep(s, id, [c, c]);
            var u := RemoveCellStep(t.0, id, c.id);
            t.1.None? && u.1.None? && Inv(t.0) && !Inv(u.0)
  {
    FindStored(s, id);
    ReplaceKeepsInv(s, id, [c, c]);
    var t := ReplaceStep(s, id, [c, c]).0;
    var r := RereadCell(c);
    assert Reread([c, c]) == [r, r] && [r, r][1..] == [r];
    assert Count([r], c.id) == 1;
    RemoveCellKeepsInvariantIff(t, id, c.id);
  }

  // ---------------------------------------------------------------- reading what was written

  /** Views put for cells with different ids are those cells' views. */
  lemma {:induction false} PutViewsHolds(views: map<Key, View>, dash: Id, cells: seq<Cell>, created: bool, i: nat)
    requires Valid(dash) && CellsValid(cells) && Distinct(cells) && i < |cells|
    ensures EncPair(dash, cells[i].id) in PutViews(views, dash, cells, created)
    ensures PutViews(views, dash, cells, created)[EncPair(dash, cells[i].id)] == StoredView(cells[i], created)
    decreases |cells|
  {
    var init, last := cells[..|cells| - 1], cells[|cells| - 1];
    assert last in cells && cells[i] in cells;
    if i < |cells| - 1 {
      PutViewsHolds(views, dash, init, created, i);
      if EncPair(dash, cells[i].id) == EncPair(dash, last.id) { EncPairInjective(dash, cells[i].id, dash, last.id); }
    }
  }

  /** A created dashboard is read back with its cells numbered; each cell's own copy of
      its view has lost id and properties, but the stored view is as given, or blank with
      the cell's id; other dashboards stay. */
  lemma CreateThenRead(s: Store, d: Dashboard, id: Id, cellIds: seq<Id>, i: nat)
    requires Shaped(Create(d, id, cellIds)) && Proper(s, Create(d, id, cellIds))
    requires CreateStep(s, d, id, cellIds).1.None? && i < |d.cells|
    ensures var t := CreateStep(s, d, id, cellIds).0;
            var k := EncPair(id, cellIds[i]);
            && Find(t, id) == Ok(d.(id := id, cells := Reread(Numbered(d.cells, cellIds))))
            && k in t.views
            && t.views[k] == (if d.cells[i].view.Some? then d.cells[i].view.value else BLANK).(id := cellIds[i])
            && t.dashboards - {Enc(id)} == s.dashboards - {Enc(id)}
  {
    PutViewsHolds(s.views, id, Numbered(d.cells, cellIds), true, i);
  }

  /** It is read back with the cells as numbered exactly when none of them brings a view. */
  lemma CreateReadsBackIff(s: Store, d: Dashboard, id: Id, cellIds: seq<Id>)
    requires |cellIds| == |d.cells| && CreateStep(s, d, id, cellIds).1.None?
    ensures Find(CreateStep(s, d, id, cellIds).0, id) == Ok(d.(id := id, cells := Numbered(d.cells, cellIds))) <==>
            forall i :: 0 <= i < |d.cells| ==> d.cells[i].view.None?
  {
    var cells := Numbered(d.cells, cellIds);
    forall i | 0 <= i < |cells|
      ensures RereadCell(cells[i]) == cells[i] <==> d.cells[i].view.None?
    {
      assert cells[i] in cells;
    }
    assert Reread(cells) == cells <==> forall i :: 0 <= i < |cells| ==> RereadCell(cells[i]) == cells[i];
  }

  /** One cell with a view, and what is left of it. */
  lemma ViewCopyIsReduced()
    ensures var view := View(0, [110], Some([112]));
            var d := Dashboard(0, 1, [], [], [Cell(0, 0, 0, 1, 1, Some(view))], None);
            var t := CreateStep(EMPTY, d, 2, [3]).0;
            && Find(t, 2).Ok? && Find(t, 2).value.cells == [Cell(3, 0, 0, 1, 1, Some(View(0, [110], Some([]))))]
            && EncPair(2, 3) in t.views && t.views[EncPair(2, 3)] == view.(id := 3)
  {
    var view := View(0, [110], Some([112]));
    var d := Dashboard(0, 1, [], [], [Cell(0, 0, 0, 1, 1, Some(view))], None);
    CreateThenRead(EMPTY, d, 2, [3], 0);
  }

  /** An update with cells stores exactly the given views, with the zero view for a cell
      that brings none. */
  lemma UpdateThenRead(s: Store, id: Id, u: DashboardUpdate, ids: seq<Id>, i: nat)
    requires Inv(s) && Shaped(Update(id, u, ids)) && Proper(s, Update(id, u, ids)) && UpdateStep(s, id, u, ids).1.None?
    requires u.cells.Some? && i < |u.cells.value|
    ensures var t := UpdateStep(s, id, u, ids).0;
            var c := Completed(u.cells.value, ids)[i];
            var was := Find(s, id).value;
            && Find(t, id) == Ok(was.(name := Or(u.name, was.name), description := Or(u.description, was.description),
                                      cells := Reread(Completed(u.cells.value, ids))))
            && Valid(c.id) && EncPair(id, c.id) in t.views
            && t.views[EncPair(id, c.id)] == if c.view.Some? then c.view.value else BLANK
  {
    var was := Find(s, id).value;
    var cells := Completed(u.cells.value, ids);
    assert cells[i] in cells;
    PutViewsHolds(DropViews(s.views, id, was.cells), id, cells, false, i);
  }

  /** The views of cells an update does not name again are gone. */
  lemma UpdateDropsOldViews(s: Store, id: Id, u: DashboardUpdate, ids: seq<Id>, c: Cell)
    requires Inv(s) && Shaped(Update(id, u, ids)) && UpdateStep(s, id, u, ids).1.None? && u.cells.Some?
    requires c in Find(s, id).value.cells && forall n :: n in Completed(u.cells.value, ids) ==> n.id != c.id
    ensures Valid(c.id) && EncPair(id, c.id) !in UpdateStep(s, id, u, ids).0.views
  {
    FindStored(s, id);
    PutViewsMisses(DropViews(s.views, id, Find(s, id).value.cells), id, Completed(u.cells.value, ids), false, c.id);
  }

  lemma {:induction false} PutViewsMisses(views: map<Key, View>, dash: Id, cells: seq<Cell>, created: bool, cell: Id)
    requires Valid(dash) && CellsValid(cells) && Valid(cell) && EncPair(dash, cell) !in views
    requires forall c :: c in cells ==> c.id != cell
    ensures EncPair(dash, cell) !in PutViews(views, dash, cells, created)
    decreases |cells|
  {
    if cells == [] {
    } else {
      var last := cells[|cells| - 1];
      assert last in cells;
      PutViewsMisses(views, dash, cells[..|cells| - 1], created, cell);
      if EncPair(dash, last.id) == EncPair(dash, cell) { EncPairInjective(dash, last.id, dash, cell); }
    }
  }

  /** Deleting a dashboard removes it, its index key and the views of its cells. */
  lemma DeleteThenRead(s: Store, id: Id, c: Cell)
    requires Inv(s) && Find(s, id).Ok? && c in Find(s, id).value.cells
    ensures var t := DeleteStep(s, id).0;
            && Find(t, id) == Err(DashboardNotFound)
            && t.orgIndex == s.orgIndex - {IndexKey(Find(s, id).value)}
            && Valid(c.id) && EncPair(id, c.id) !in t.views
            && t.dashboards == s.dashboards - {Enc(id)}
  {
    FindStored(s, id);
  }
}
