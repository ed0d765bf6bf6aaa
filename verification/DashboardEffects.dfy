/** What readers see after a dashboard or cell call, and when a call is refused. */
module DashboardEffects {
  import opened Wrappers
  import opened Bytes
  import opened Ids
  import opened Dashboards

  /** The dashboard a caller names. */
  ghost predicate Stored(s: Store, id: Id) {
    id != 0 && Enc(id) in s.dashboards
  }

  /** Everything but one dashboard and the views is as before. */
  ghost predicate OthersKept(s: Store, t: Store, id: Id)
    requires id != 0
  {
    t.dashboards - {Enc(id)} == s.dashboards - {Enc(id)} && t.orgIndex == s.orgIndex
  }

  /** Every view but one is as before. */
  ghost predicate OtherViewsKept(s: Store, t: Store, id: Id, cell: Id)
    requires id != 0 && cell != 0
  {
    t.views - {EncPair(id, cell)} == s.views - {EncPair(id, cell)}
  }

  lemma FindAnswers(s: Store, id: Id)
    ensures Find(s, id) == if id == 0 then Err(BadId) else if Enc(id) !in s.dashboards then Err(DashboardNotFound)
                           else Ok(s.dashboards[Enc(id)])
  {
  }

  /** An added cell stands last, where it was put, under its new id; its view is the given
      or a blank one under the same id. */
  lemma AddCellThenRead(s: Store, id: Id, cell: Cell, cellId: Id, view: Option<View>)
    ensures var (t, e) := AddCellStep(s, id, cell, cellId, view);
            && e == (if id == 0 then Some(BadId) else if !Stored(s, id) then Some(DashboardNotFound)
                     else if cellId == 0 then Some(BadId) else None)
            && (e.Some? ==> t == s)
            && (e.None? ==>
                  var was := s.dashboards[Enc(id)];
                  && Find(t, id).Ok? && |Find(t, id).value.cells| == |was.cells| + 1
                  && var c := Find(t, id).value.cells[|was.cells|];
                  && Find(t, id) == Ok(was.(cells := was.cells + [c]))
                  && c.id == cellId && c.x == cell.x && c.y == cell.y && c.w == cell.w && c.h == cell.h
                  && (c.view.Some? <==> cell.view.Some?)
                  && (c.view.Some? ==> c.view.value == View(0, cell.view.value.name, Some([])))
                  && EncPair(id, cellId) in t.views
                  && t.views[EncPair(id, cellId)] ==
                     (if view.Some? then View(cellId, view.value.name, view.value.properties)
                      else View(cellId, [], None))
                  && OthersKept(s, t, id) && OtherViewsKept(s, t, id, cellId))
  {
  }

  /** Replaced cells are the given ones, with reduced view copies; every one must have been
      there, and no view changes. */
  lemma ReplaceThenRead(s: Store, id: Id, cs: seq<Cell>)
    ensures var (t, e) := ReplaceStep(s, id, cs);
            && (if id == 0 then e == Some(BadId) else if !Stored(s, id) then e == Some(DashboardNotFound)
                else ReplaceAnswer(s.dashboards[Enc(id)].cells, cs, e))
            && (e.Some? ==> t == s)
            && (e.None? ==>
                  && Find(t, id).Ok? && |Find(t, id).value.cells| == |cs|
                  && Find(t, id).value == s.dashboards[Enc(id)].(cells := Find(t, id).value.cells)
                  && (forall i :: 0 <= i < |cs| ==> SameCell(Find(t, id).value.cells[i], cs[i]))
                  && OthersKept(s, t, id) && t.views == s.views)
  {
    if Find(s, id).Ok? { ReplaceErrorIs(Find(s, id).value.cells, cs); }
  }

  predicate Absent(cells: seq<Cell>, c: Cell) {
    forall was :: was in cells ==> was.id != c.id
  }

  /** The first cell without an id, or that was not there, decides. */
  ghost predicate ReplaceAnswer(cells: seq<Cell>, cs: seq<Cell>, e: Option<Error>) {
    if forall i :: 0 <= i < |cs| ==> cs[i].id != 0 && !Absent(cells, cs[i]) then e == None
    else exists i :: FirstBad(cells, cs, i) && e == Some(if cs[i].id == 0 then Invalid else Conflict)
  }

  ghost predicate FirstBad(cells: seq<Cell>, cs: seq<Cell>, i: int) {
    && 0 <= i < |cs| && (cs[i].id == 0 || Absent(cells, cs[i]))
    && forall j :: 0 <= j < i ==> cs[j].id != 0 && !Absent(cells, cs[j])
  }

  lemma {:induction false} ReplaceErrorIs(cells: seq<Cell>, cs: seq<Cell>)
    ensures ReplaceAnswer(cells, cs, ReplaceError(CellIds(cells), cs))
  {
    if cs == [] {
    } else if cs[0].id == 0 || Absent(cells, cs[0]) {
      assert FirstBad(cells, cs, 0);
    } else {
      ReplaceErrorIs(cells, cs[1..]);
      assert forall i :: 0 < i < |cs| ==> cs[i] == cs[1..][i - 1];
      if i :| FirstBad(cells, cs[1..], i) && ReplaceError(CellIds(cells), cs[1..]) ==
                                             Some(if cs[1..][i].id == 0 then Invalid else Conflict) {
        assert FirstBad(cells, cs, i + 1);
      }
    }
  }

  /** The same cell, but for what its view copy loses. */
  predicate SameCell(c: Cell, was: Cell) {
    && c.id == was.id && c.x == was.x && c.y == was.y && c.w == was.w && c.h == was.h
    && (c.view.Some? <==> was.view.Some?) && (c.view.Some? ==> c.view.value.name == was.view.value.name)
  }

  /** The first cell with the id goes, the others close up in order, and its view goes. */
  lemma RemoveCellThenRead(s: Store, id: Id, cellId: Id)
    requires Inv(s)
    ensures var (t, e) := RemoveCellStep(s, id, cellId);
            && e == (if id == 0 then Some(BadId) else if !Stored(s, id) then Some(DashboardNotFound)
                     else if forall c :: c in s.dashboards[Enc(id)].cells ==> c.id != cellId then Some(CellNotFound)
                     else None)
            && (e.Some? ==> t == s)
            && (e.None? ==>
                  var cells := s.dashboards[Enc(id)].cells;
                  && (exists i :: FirstAt(cells, cellId, i)
                        && Find(t, id) == Ok(s.dashboards[Enc(id)].(cells := cells[..i] + cells[i + 1..])))
                  && Valid(cellId) && EncPair(id, cellId) !in t.views
                  && OthersKept(s, t, id) && OtherViewsKept(s, t, id, cellId))
  {
    var (t, e) := RemoveCellStep(s, id, cellId);
    if Find(s, id).Ok? {
      var cells := Find(s, id).value.cells;
      var i := IndexOf(cells, cellId);
      if i >= 0 {
        assert cells[i] in cells;
        assert FirstAt(cells, cellId, i);
      }
    }
  }

  ghost predicate FirstAt(cells: seq<Cell>, cellId: Id, i: int) {
    0 <= i < |cells| && cells[i].id == cellId && forall j :: 0 <= j < i ==> cells[j].id != cellId
  }

  /** Position and size change where the update names them, of the first cell with the id. */
  lemma UpdateCellThenRead(s: Store, id: Id, cellId: Id, u: CellUpdate)
    ensures var (t, e) := UpdateCellStep(s, id, cellId, u);
            && e == (if u.x.None? && u.y.None? && u.w.None? && u.h.None? then Some(Invalid)
                     else if id == 0 then Some(BadId) else if !Stored(s, id) then Some(DashboardNotFound)
                     else if forall c :: c in s.dashboards[Enc(id)].cells ==> c.id != cellId then Some(CellNotFound)
                     else None)
            && (e.Some? ==> t == s)
            && (e.None? ==>
                  var cells := s.dashboards[Enc(id)].cells;
                  && (exists i :: FirstAt(cells, cellId, i) && Moved(u, cells, t, id, i))
                  && OthersKept(s, t, id) && t.views == s.views)
  {
    if Find(s, id).Ok? {
      var cells := Find(s, id).value.cells;
      var i := IndexOf(cells, cellId);
      if i >= 0 {
        assert cells[i] in cells;
        assert FirstAt(cells, cellId, i);
        if u != CellUpdate(None, None, None, None) {
          assert Moved(u, cells, UpdateCellStep(s, id, cellId, u).0, id, i);
        }
      }
    }
  }

  ghost predicate Moved(u: CellUpdate, cells: seq<Cell>, t: Store, id: Id, i: int)
    requires 0 <= i < |cells|
  {
    && Find(t, id).Ok? && |Find(t, id).value.cells| == |cells|
    && var c, was := Find(t, id).value.cells[i], cells[i];
    && Find(t, id).value.cells == cells[i := c]
    && c.id == was.id && c.view == was.view
    && c.x == (if u.x.Some? then u.x.value else was.x) && c.y == (if u.y.Some? then u.y.value else was.y)
    && c.w == (if u.w.Some? then u.w.value else was.w) && c.h == (if u.h.Some? then u.h.value else was.h)
  }

  /** A view changes where the update names it, and keeps its id. */
  lemma UpdateViewThenRead(s: Store, dash: Id, cell: Id, name: Option<Key>, properties: Option<Key>)
    ensures var (t, e) := UpdateViewStep(s, dash, cell, name, properties);
            && e == (if dash == 0 || cell == 0 then Some(BadId)
                     else if EncPair(dash, cell) !in s.views then Some(ViewNotFound)
                     else if name.None? && properties == Some([]) then Some(Invalid)
                     else None)
            && (e.Some? ==> t == s)
            && (e.None? ==>
                  var k := EncPair(dash, cell);
                  && k in t.views && t.views[k].id == s.views[k].id
                  && t.views[k].name == (if name.Some? then name.value else s.views[k].name)
                  && t.views[k].properties == (if properties.Some? then properties else s.views[k].properties)
                  && t.dashboards == s.dashboards && t.orgIndex == s.orgIndex && OtherViewsKept(s, t, dash, cell))
  {
  }

  /** An update without cells changes name and description where it names them. */
  lemma RenameThenRead(s: Store, id: Id, u: DashboardUpdate)
    requires u.cells.None?
    ensures var (t, e) := UpdateStep(s, id, u, []);
            && (e.Some? ==> t == s)
            && (e.None? ==>
                  var was := s.dashboards[Enc(id)];
                  && Find(t, id).Ok?
                  && var now := Find(t, id).value;
                  && now == was.(name := now.name, description := now.description)
                  && now.name == (if u.name.Some? then u.name.value else was.name)
                  && now.description == (if u.description.Some? then u.description.value else was.description)
                  && OthersKept(s, t, id) && t.views == s.views)
  {
  }

  /** When creating, updating and deleting a dashboard is refused; a refusal changes nothing. */
  lemma CreateAnswers(s: Store, given: Dashboard, id: Id, cellIds: seq<Id>)
    requires |cellIds| == |given.cells|
    ensures var (t, e) := CreateStep(s, given, id, cellIds);
            && e == (if id == 0 || given.org == 0 || exists i :: 0 <= i < |cellIds| && cellIds[i] == 0 then Some(BadId)
                     else None)
            && (e.Some? ==> t == s)
  {
    var cells := Numbered(given.cells, cellIds);
    assert forall i :: 0 <= i < |cells| ==> cells[i] in cells && cells[i].id == cellIds[i];
  }

  lemma UpdateAnswers(s: Store, id: Id, u: DashboardUpdate, ids: seq<Id>)
    requires Inv(s) && (u.cells.Some? ==> |ids| == |u.cells.value|)
    ensures var (t, e) := UpdateStep(s, id, u, ids);
            && e == (if u.name.None? && u.description.None? then Some(Invalid)
                     else if id == 0 then Some(BadId) else if !Stored(s, id) then Some(DashboardNotFound)
                     else if u.cells.Some?
                             && exists i :: 0 <= i < |ids| && ids[i] == 0 && u.cells.value[i].id == 0
                     then Some(BadId)
                     else None)
            && (e.Some? ==> t == s)
  {
    if u.cells.Some? {
      var cells := Completed(u.cells.value, ids);
      assert forall i :: 0 <= i < |cells| ==> cells[i] in cells;
      assert CellsValid(cells) <==> !exists i :: 0 <= i < |ids| && ids[i] == 0 && u.cells.value[i].id == 0;
    }
  }

  lemma DeleteAnswers(s: Store, id: Id)
    requires Inv(s)
    ensures var (t, e) := DeleteStep(s, id);
            && e == (if id == 0 then Some(BadId) else if !Stored(s, id) then Some(DashboardNotFound) else None)
            && (e.Some? ==> t == s)
  {
  }
}
