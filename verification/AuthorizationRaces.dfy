/** Interleaved authorization calls: creating and deleting are one transaction each, an
    update reads in one transaction and writes in a later one. */
module AuthorizationRaces {
  import opened Wrappers
  import opened Bytes
  import opened Ids
  import opened Authorizations

  /** `pending` are the updates between their read and their write, with the record they
      carry; `created` remembers every record ever stored, and drives nothing. */
  datatype World = World(store: Store, pending: map<nat, Authorization>, created: map<Id, Key>)

  const INITIAL := World(EMPTY, map[], map[])

  datatype Step =
    | Add(given: Authorization, draws: seq<Id>)
    | Read(who: nat, id: Id, status: Option<Status>, description: Option<Key>)
    | Write(who: nat)
    | Remove(id: Id)

  /** What a caller of CreateAuthorization has to respect: token and ids were never used before. */
  predicate Fresh(w: World, given: Authorization, draws: seq<Id>) {
    && given.id !in w.created && (forall d :: d in draws ==> d !in w.created)
    && forall i :: i in w.created ==> w.created[i] != given.token
  }

  predicate Enabled(w: World, step: Step) {
    match step
    case Add(given, draws) => Fresh(w, given, draws)
    case Read(who, id, _, _) => who !in w.pending && GetById(w.store, id).Ok?
    case Write(who) => who in w.pending
    case Remove(_) => true
  }

  function Changed(a: Authorization, status: Option<Status>, description: Option<Key>): Authorization {
    a.(status := if status.Some? then status.value else a.status,
       description := if description.Some? then description.value else a.description)
  }

  /** The write of an update, if its record can be encoded. */
  function Commit(s: Store, a: Authorization): Store
    requires Valid(a.id)
  {
    if Encoded(a).Err? then s else UpdateWrite(s, Encoded(a).value)
  }

  function Apply(w: World, step: Step): World
    requires Enabled(w, step)
  {
    match step
    case Add(given, draws) =>
      var t := CreateStep(w.store, given, draws).0;
      var id := ChooseId(w.store, given, draws);
      World(t, w.pending, if t != w.store && id.Some? then w.created[id.value := given.token] else w.created)
    case Read(who, id, status, description) =>
      w.(pending := w.pending[who := Changed(GetById(w.store, id).value, status, description)])
    case Write(who) =>
      var a := w.pending[who];
      World(if Valid(a.id) then Commit(w.store, a) else w.store, w.pending - {who}, w.created)
    case Remove(id) => w.(store := DeleteStep(w.store, id).0)
  }

  /** Read and write with nothing in between are the update step. */
  lemma ReadThenWriteIsUpdate(w: World, who: nat, id: Id, status: Option<Status>, description: Option<Key>)
    requires Inv(w.store) && Enabled(w, Read(who, id, status, description))
    ensures var t := Apply(w, Read(who, id, status, description));
            && Enabled(t, Write(who))
            && Apply(t, Write(who)) == w.(store := UpdateStep(w.store, id, status, description).0)
  {
    assert w.pending[who := Changed(GetById(w.store, id).value, status, description)] - {who} == w.pending;
  }

  // ---------------------------------------------------------------- invariant

  /** Every record that is stored, or about to be written, is one that was created. */
  ghost predicate Known(w: World, a: Authorization) {
    Valid(a.id) && Valid(a.org) && a.token != [] && a.id in w.created && w.created[a.id] == a.token
  }

  ghost predicate Traced(w: World) {
    && (forall i, j :: i in w.created && j in w.created && w.created[i] == w.created[j] ==> i == j)
    && (forall k :: k in w.store.auths ==> Known(w, w.store.auths[k]))
    && (forall v :: v in w.pending ==> Known(w, w.pending[v]))
  }

  lemma CreateKeeps(w: World, given: Authorization, draws: seq<Id>)
    requires Inv(w.store) && Traced(w) && Enabled(w, Add(given, draws))
    ensures var t := Apply(w, Add(given, draws));
            Inv(t.store) && Traced(t)
  {
    CreateKeepsBijection(w.store, given, draws);
    var t := Apply(w, Add(given, draws));
    var id := ChooseId(w.store, given, draws);
    if t.store != w.store {
      assert id.value !in w.created;
      var k := Enc(id.value);
      assert t.store.auths == w.store.auths[k := t.store.auths[k]];
      assert Known(t, t.store.auths[k]);
      forall a | Known(w, a)
        ensures Known(t, a)
      {
      }
    }
  }

  /** A write carries the token its id was created with, so it disturbs nobody. */
  lemma CommitKeeps(w: World, a: Authorization)
    requires Inv(w.store) && Traced(w) && Known(w, a) && Encoded(a).Ok?
    ensures Inv(UpdateWrite(w.store, Encoded(a).value))
  {
    var s, e := w.store, Encoded(a).value;
    if e.token in s.index {
      var other := s.auths[s.index[e.token]];
      assert Known(w, other);
      assert other.id == e.id;
    }
    if Enc(e.id) in s.auths {
      EncInjective(e.id, s.auths[Enc(e.id)].id);
      assert Known(w, s.auths[Enc(e.id)]);
    }
    StaleUpdateKeepsBijectionIff(s, e);
  }

  lemma StepKeeps(w: World, step: Step)
    requires Inv(w.store) && Traced(w) && Enabled(w, step)
    ensures Inv(Apply(w, step).store) && Traced(Apply(w, step))
  {
    match step
    case Add(given, draws) => CreateKeeps(w, given, draws);
    case Read(who, id, status, description) =>
      assert Known(w, GetById(w.store, id).value);
    case Write(who) => WriteKeeps(w, who);
    case Remove(id) => RemoveKeeps(w, id);
  }

  lemma WriteKeeps(w: World, who: nat)
    requires Inv(w.store) && Traced(w) && Enabled(w, Write(who))
    ensures Inv(Apply(w, Write(who)).store) && Traced(Apply(w, Write(who)))
  {
    if Encoded(w.pending[who]).Ok? {
      CommitKeeps(w, w.pending[who]);
      assert Known(w, Encoded(w.pending[who]).value);
    }
  }

  lemma RemoveKeeps(w: World, id: Id)
    requires Inv(w.store) && Traced(w)
    ensures Inv(Apply(w, Remove(id)).store) && Traced(Apply(w, Remove(id)))
  {
    DeleteKeepsBijection(w.store, id);
  }

  ghost predicate Path(worlds: seq<World>, steps: seq<Step>) {
    && |worlds| == |steps| + 1
    && forall i :: 0 <= i < |steps| ==> Enabled(worlds[i], steps[i]) && worlds[i + 1] == Apply(worlds[i], steps[i])
  }

  lemma {:induction false} PathKeeps(worlds: seq<World>, steps: seq<Step>, n: nat)
    requires Path(worlds, steps) && Inv(worlds[0].store) && Traced(worlds[0]) && n < |worlds|
    ensures Inv(worlds[n].store) && Traced(worlds[n])
  {
    if n == 0 {
    } else {
      PathKeeps(worlds, steps, n - 1);
      StepKeeps(worlds[n - 1], steps[n - 1]);
    }
  }

  /** If tokens and ids are never used twice, token index and id bucket are a bijection at
      every moment of every interleaving. */
  lemma EveryInterleavingKeepsBijection(worlds: seq<World>, steps: seq<Step>, n: nat)
    requires Path(worlds, steps) && worlds[0] == INITIAL && n < |worlds|
    ensures Inv(worlds[n].store)
  {
    PathKeeps(worlds, steps, n);
  }

  // ---------------------------------------------------------------- deleted records

  /** A created record that is not stored, with no update left that would write it. */
  ghost predicate Gone(w: World, id: Id) {
    && Valid(id) && id in w.created && Enc(id) !in w.store.auths
    && forall v :: v in w.pending && w.pending[v].id == id ==> Encoded(w.pending[v]).Err?
  }

  lemma StepKeepsGone(w: World, step: Step, id: Id)
    requires Inv(w.store) && Traced(w) && Enabled(w, step) && Gone(w, id)
    ensures Gone(Apply(w, step), id)
  {
    match step
    case Add(given, draws) =>
      var chosen := ChooseId(w.store, given, draws);
      if chosen.Some? && Enc(chosen.value) == Enc(id) { EncInjective(chosen.value, id); }
    case Read(who, other, status, description) =>
      EncInjective(other, GetById(w.store, other).value.id);
    case Write(who) =>
      var a := w.pending[who];
      assert Known(w, a);
      if Enc(a.id) == Enc(id) { EncInjective(a.id, id); }
    case Remove(_) =>
  }

  lemma {:induction false} GoneIsPermanent(worlds: seq<World>, steps: seq<Step>, i: nat, j: nat, id: Id)
    requires Path(worlds, steps) && Inv(worlds[0].store) && Traced(worlds[0])
    requires i <= j < |worlds| && Gone(worlds[i], id)
    ensures Gone(worlds[j], id)
    decreases j
  {
    if i == j {
    } else {
      GoneIsPermanent(worlds, steps, i, j - 1, id);
      PathKeeps(worlds, steps, j - 1);
      StepKeepsGone(worlds[j - 1], steps[j - 1], id);
    }
  }

  ghost predicate MayReturn(w: World, id: Id)
    requires Valid(id)
  {
    exists worlds: seq<World>, steps: seq<Step> ::
      Path(worlds, steps) && worlds[0] == w && Enc(id) in worlds[|steps|].store.auths
  }

  /** A deleted record can be stored again exactly when an update that read it before has
      still to write it. */
  lemma MayReturnIff(w: World, id: Id)
    requires Inv(w.store) && Traced(w) && Valid(id) && id in w.created && Enc(id) !in w.store.auths
    ensures MayReturn(w, id) <==> exists v :: v in w.pending && w.pending[v].id == id && Encoded(w.pending[v]).Ok?
  {
    if MayReturn(w, id) {
      var worlds: seq<World>, steps: seq<Step> :|
        Path(worlds, steps) && worlds[0] == w && Enc(id) in worlds[|steps|].store.auths;
      if Gone(w, id) { GoneIsPermanent(worlds, steps, 0, |steps|, id); }
    }
    if exists v :: v in w.pending && w.pending[v].id == id && Encoded(w.pending[v]).Ok? {
      var v :| v in w.pending && w.pending[v].id == id && Encoded(w.pending[v]).Ok?;
      var t := Apply(w, Write(v));
      assert Enc(id) in t.store.auths;
      assert Path([w, t], [Write(v)]);
    }
  }

  /** A record created, read for an update, deleted, and stored again by the write. */
  lemma DeletedRecordReturns(a: Authorization)
    requires Storable(a)
    ensures exists worlds: seq<World> ::
              && Path(worlds, [Add(a, []), Read(0, a.id, None, None), Remove(a.id), Write(0)])
              && worlds[0] == INITIAL && GetById(worlds[3].store, a.id) == Err(NotFound)
              && GetById(worlds[4].store, a.id) == Ok(a)
  {
    var w1 := World(Store(map[Enc(a.id) := a], map[a.token := Enc(a.id)]), map[], map[a.id := a.token]);
    var w2 := w1.(pending := map[0 := a]);
    var w3 := w2.(store := EMPTY);
    var w4 := w1;
    assert w1 == Apply(INITIAL, Add(a, []));
    assert w2 == Apply(w1, Read(0, a.id, None, None));
    assert w3 == Apply(w2, Remove(a.id));
    assert w4 == Apply(w3, Write(0));
    assert Path([INITIAL, w1, w2, w3, w4], [Add(a, []), Read(0, a.id, None, None), Remove(a.id), Write(0)]);
  }
}
