/** Checks and their tasks: CreateCheck, UpdateCheck, PatchCheck and DeleteCheck as
    sagas over the check store and the task service. A step is one call to one of the
    two; any number of calls interleave, and every call may fail. */
module Checks {
  import opened Wrappers
  import opened Bytes
  import opened Ids

  datatype Status = Active | Inactive

  /** The unique key of the check index. */
  datatype Name = Name(org: Id, text: Key)

  datatype Check = Check(name: Name, task: Id)

  /** Where a call to the service has got to, with what it carries along. */
  datatype Call =
    | CreateStart(id: Id, name: Name, status: Status)           // task not yet created
    | CreatePut(id: Id, name: Name, status: Status, task: Id)   // task created, check not yet stored
    | CreateUndo(task: Id)                                      // storing failed: remove the task
    | SetStatus(task: Id, change: Option<Status>)               // check stored: bring the task in line
    | UpdateStart(id: Id, text: Key, status: Status)
    | PatchStart(id: Id, newText: Option<Key>, change: Option<Status>)
    | DeleteStart(id: Id)
    | DeleteOfTask(id: Id, task: Id)                            // check read, task not yet deleted
    | DeleteOfCheck(id: Id)                                     // task deleted, check not yet
    | Returned

  /** How a store answers: it did the work; it refused; it did the work and the answer
      was lost, so the caller sees an error. */
  datatype Outcome = Done | Refused | Lost

  /** `pairs` records every check ever stored with its task; it drives nothing. */
  datatype State = State(
    checks: map<Id, Check>, names: map<Name, Id>, tasks: map<Id, Status>,
    usedIds: set<Id>, usedTasks: set<Id>, calls: map<nat, Call>, pairs: map<Id, Id>)

  const INITIAL := State(map[], map[], map[], {}, {}, map[], map[])

  /** Whether the check store lets a check go by this name. */
  predicate NameFree(s: State, name: Name, id: Id) {
    name in s.names ==> s.names[name] == id
  }

  /** Put of an existing check under a name: old index entry out, new one in. */
  function Rename(s: State, id: Id, name: Name): State
    requires id in s.checks
  {
    s.(checks := s.checks[id := s.checks[id].(name := name)],
       names := (s.names - {s.checks[id].name})[name := id])
  }

  datatype Step =
    | Begin(who: nat, call: Call)
    | Act(who: nat, outcome: Outcome, task: Id)   // `task` is the id CreateTask would hand out

  predicate Enabled(s: State, step: Step) {
    match step
    case Begin(who, call) =>
      && who !in s.calls
      && (match call
          case CreateStart(id, _, _) => id !in s.usedIds
          case UpdateStart(_, _, _) => true
          case PatchStart(_, _, _) => true
          case DeleteStart(_) => true
          case _ => false)
    case Act(who, _, task) =>
      who in s.calls && !s.calls[who].Returned? && (s.calls[who].CreateStart? ==> task !in s.usedTasks)
  }

  /** The store's new contents and the call's next stage. */
  function Perform(s: State, call: Call, outcome: Outcome, task: Id): (State, Call)
    requires !call.Returned?
  {
    if outcome.Refused? then (s, if call.CreatePut? then CreateUndo(call.task) else Returned)
    else
      match call
      case CreateStart(id, name, status) =>
        (s.(tasks := s.tasks[task := Inactive], usedTasks := s.usedTasks + {task}),
         if outcome.Done? then CreatePut(id, name, status, task) else Returned)
      case CreatePut(id, name, status, t) =>
        if name in s.names || id in s.checks then (s, CreateUndo(t))
        else
          (s.(checks := s.checks[id := Check(name, t)], names := s.names[name := id], pairs := s.pairs[id := t]),
           if outcome.Lost? then CreateUndo(t)
           else if status.Inactive? then Returned
           else SetStatus(t, Some(status)))
      case CreateUndo(t) => (s.(tasks := s.tasks - {t}), Returned)
      case SetStatus(t, status) =>
        if t !in s.tasks || status.None? then (s, Returned)
        else (s.(tasks := s.tasks[t := status.value]), Returned)
      case UpdateStart(id, text, status) =>
        if id !in s.checks || !NameFree(s, Name(s.checks[id].name.org, text), id) then (s, Returned)
        else
          (Rename(s, id, Name(s.checks[id].name.org, text)),
           if outcome.Lost? then Returned else SetStatus(s.checks[id].task, Some(status)))
      case PatchStart(id, newText, change) =>
        if id !in s.checks then (s, Returned)
        else
          var name := if newText.Some? then Name(s.checks[id].name.org, newText.value) else s.checks[id].name;
          if !NameFree(s, name, id) then (s, Returned)
          else
            (Rename(s, id, name),
             if outcome.Lost? then Returned else SetStatus(s.checks[id].task, change))
      case DeleteStart(id) =>
        (s, if id in s.checks && outcome.Done? then DeleteOfTask(id, s.checks[id].task) else Returned)
      case DeleteOfTask(id, t) =>
        if t !in s.tasks then (s, Returned)
        else (s.(tasks := s.tasks - {t}), if outcome.Lost? then Returned else DeleteOfCheck(id))
      case DeleteOfCheck(id) =>
        if id !in s.checks then (s, Returned)
        else (s.(checks := s.checks - {id}, names := s.names - {s.checks[id].name}), Returned)
  }

  function Apply(s: State, step: Step): State
    requires Enabled(s, step)
  {
    match step
    case Begin(who, call) =>
      s.(calls := s.calls[who := call], usedIds := if call.CreateStart? then s.usedIds + {call.id} else s.usedIds)
    case Act(who, outcome, task) =>
      var (t, next) := Perform(s, s.calls[who], outcome, task);
      t.(calls := s.calls[who := next])
  }

  // ---------------------------------------------------------------- invariant

  /** The check a call is about to store, if any. */
  function Pending(c: Call): Option<Id> {
    if c.CreateStart? || c.CreatePut? then Some(c.id) else None
  }

  /** What a call may rely on while others run. */
  ghost predicate CallOk(s: State, c: Call) {
    match c
    case CreateStart(id, _, _) => id in s.usedIds && id !in s.pairs
    case CreatePut(id, _, _, t) => id in s.usedIds && id !in s.pairs && t in s.usedTasks && t !in s.pairs.Values
    case SetStatus(t, _) => t in s.pairs.Values
    case DeleteOfTask(id, t) => id in s.pairs && s.pairs[id] == t
    case DeleteOfCheck(id) => id in s.pairs && s.pairs[id] !in s.tasks
    case _ => true
  }

  ghost predicate CallsOk(s: State) {
    && (forall w :: w in s.calls ==> CallOk(s, s.calls[w]))
    && (forall v, w :: v in s.calls && w in s.calls && v != w && Pending(s.calls[v]).Some? ==>
          Pending(s.calls[v]) != Pending(s.calls[w]))
    && (forall v, w :: v in s.calls && w in s.calls && v != w && s.calls[v].CreatePut? && s.calls[w].CreatePut? ==>
          s.calls[v].task != s.calls[w].task)
  }

  /** Pairs are one to one, and a stored check shows its pair. */
  ghost predicate PairsOk(s: State) {
    && (forall c :: c in s.checks ==> c in s.pairs && s.pairs[c] == s.checks[c].task)
    && (forall a, b :: a in s.pairs && b in s.pairs && s.pairs[a] == s.pairs[b] ==> a == b)
    && s.pairs.Keys <= s.usedIds && s.pairs.Values <= s.usedTasks && s.tasks.Keys <= s.usedTasks
  }

  /** A check goes only after its task, so a task that exists has its check; and only
      tasks of stored checks were ever switched on. */
  ghost predicate TasksOk(s: State) {
    && (forall c :: c in s.pairs && s.pairs[c] in s.tasks ==> c in s.checks)
    && (forall t :: t in s.tasks && s.tasks[t].Active? ==> t in s.pairs.Values)
  }

  /** The name index and the check bucket mirror each other. */
  ghost predicate NamesOk(s: State) {
    && (forall n :: n in s.names ==> s.names[n] in s.checks && s.checks[s.names[n]].name == n)
    && (forall c :: c in s.checks ==> s.checks[c].name in s.names && s.names[s.checks[c].name] == c)
  }

  ghost predicate Inv(s: State) {
    CallsOk(s) && PairsOk(s) && TasksOk(s) && NamesOk(s)
  }

  // ---------------------------------------------------------------- preservation

  /** `pairs` only grows, and tasks that are gone stay gone unless newly numbered. */
  ghost predicate Grows(s: State, t: State) {
    && (forall c :: c in s.pairs ==> c in t.pairs && t.pairs[c] == s.pairs[c])
    && s.usedIds <= t.usedIds && s.usedTasks <= t.usedTasks
    && (forall x :: x in t.tasks && x in s.usedTasks ==> x in s.tasks)
  }

  lemma ValuesContain(m: map<Id, Id>, k: Id)
    requires k in m
    ensures m[k] in m.Values
  {
  }

  lemma GrowingKeepsCall(s: State, t: State, c: Call)
    requires PairsOk(s) && CallOk(s, c) && Grows(s, t)
    requires c.CreateStart? || c.CreatePut? ==> c.id !in t.pairs
    requires c.CreatePut? ==> c.task !in t.pairs.Values
    ensures CallOk(t, c)
  {
    if c.SetStatus? {
      var k :| k in s.pairs && s.pairs[k] == c.task;
      ValuesContain(t.pairs, k);
    }
    if c.DeleteOfCheck? { ValuesContain(s.pairs, c.id); }
  }

  lemma PerformGrows(s: State, call: Call, outcome: Outcome, task: Id)
    requires PairsOk(s) && CallOk(s, call) && !call.Returned?
    requires call.CreateStart? ==> task !in s.usedTasks
    ensures Grows(s, Perform(s, call, outcome, task).0)
  {
  }

  lemma PerformKeepsPairs(s: State, call: Call, outcome: Outcome, task: Id)
    requires PairsOk(s) && CallOk(s, call) && !call.Returned?
    ensures PairsOk(Perform(s, call, outcome, task).0)
  {
    if call.CreatePut? { PutKeepsPairs(s, call, outcome, task); }
  }

  lemma PutKeepsPairs(s: State, call: Call, outcome: Outcome, task: Id)
    requires PairsOk(s) && call.CreatePut? && CallOk(s, call)
    ensures PairsOk(Perform(s, call, outcome, task).0)
  {
    forall a | a in s.pairs
      ensures s.pairs[a] != call.task
    {
      ValuesContain(s.pairs, a);
    }
    ValuesOfUpdate(s.pairs, call.id, call.task);
  }

  lemma ValuesOfUpdate(m: map<Id, Id>, k: Id, v: Id)
    requires k !in m
    ensures m[k := v].Values == m.Values + {v}
  {
    var n := m[k := v];
    assert n[k] == v;
    forall x | x in m.Values
      ensures x in n.Values
    {
      var j :| j in m && m[j] == x;
      assert n[j] == x;
    }
  }

  lemma PerformKeepsNames(s: State, call: Call, outcome: Outcome, task: Id)
    requires NamesOk(s) && !call.Returned?
    ensures NamesOk(Perform(s, call, outcome, task).0)
  {
    match call {
      case UpdateStart(id, text, _) =>
        if id in s.checks && NameFree(s, Name(s.checks[id].name.org, text), id) {
          RenameKeepsNames(s, id, Name(s.checks[id].name.org, text));
        }
      case PatchStart(id, newText, _) =>
        if id in s.checks {
          var name := if newText.Some? then Name(s.checks[id].name.org, newText.value) else s.checks[id].name;
          if NameFree(s, name, id) { RenameKeepsNames(s, id, name); }
        }
      case _ =>
    }
  }

  lemma RenameKeepsNames(s: State, id: Id, name: Name)
    requires NamesOk(s) && id in s.checks && NameFree(s, name, id)
    ensures NamesOk(Rename(s, id, name))
  {
    var t := Rename(s, id, name);
    forall n | n in t.names
      ensures t.names[n] in t.checks && t.checks[t.names[n]].name == n
    {
      if n != name { assert s.names[n] != id; }
    }
    forall c | c in t.checks
      ensures t.checks[c].name in t.names && t.names[t.checks[c].name] == c
    {
      if c != id { assert s.checks[c].name != name && s.checks[c].name != s.checks[id].name; }
    }
  }

  /** A switched-on task belongs to a stored check. */
  lemma PerformKeepsTasks(s: State, call: Call, outcome: Outcome, task: Id)
    requires PairsOk(s) && TasksOk(s) && CallOk(s, call) && !call.Returned?
    requires call.CreateStart? ==> task !in s.usedTasks
    ensures TasksOk(Perform(s, call, outcome, task).0)
  {
    var t := Perform(s, call, outcome, task).0;
    forall c | c in t.pairs && t.pairs[c] in t.tasks
      ensures c in t.checks
    {
      if c in s.pairs { ValuesContain(s.pairs, c); }
    }
    forall x | x in t.tasks && t.tasks[x].Active?
      ensures x in t.pairs.Values
    {
      if call.CreatePut? && t.pairs != s.pairs { ValuesOfUpdate(s.pairs, call.id, call.task); }
    }
  }

  lemma NextCallOk(s: State, call: Call, outcome: Outcome, task: Id)
    requires PairsOk(s) && CallOk(s, call) && !call.Returned?
    requires call.CreateStart? ==> task !in s.usedTasks
    ensures var (t, next) := Perform(s, call, outcome, task);
            && CallOk(t, next)
            && (Pending(next).Some? ==> Pending(next) == Pending(call))
            && (next.CreatePut? ==> next.task !in s.usedTasks)
  {
    var (t, next) := Perform(s, call, outcome, task);
    match next {
      case SetStatus(x, _) =>
        if call.CreatePut? {
          ValuesContain(t.pairs, call.id);
        } else {
          ValuesContain(s.pairs, call.id);
        }
      case _ =>
    }
  }

  lemma ActKeepsCalls(s: State, who: nat, outcome: Outcome, task: Id)
    requires CallsOk(s) && PairsOk(s) && Enabled(s, Act(who, outcome, task))
    ensures CallsOk(Apply(s, Act(who, outcome, task)))
  {
    var call := s.calls[who];
    var (m, next) := Perform(s, call, outcome, task);
    var t := m.(calls := s.calls[who := next]);
    NextCallOk(s, call, outcome, task);
    PerformGrows(s, call, outcome, task);
    forall w | w in s.calls && w != who
      ensures CallOk(t, s.calls[w])
    {
      OthersUnharmed(s, who, w, outcome, task);
      GrowingKeepsCall(s, m, s.calls[w]);
    }
  }

  /** Storing one check leaves every other pending check unstored. */
  lemma OthersUnharmed(s: State, who: nat, w: nat, outcome: Outcome, task: Id)
    requires CallsOk(s) && who in s.calls && w in s.calls && w != who && !s.calls[who].Returned?
    ensures var t := Perform(s, s.calls[who], outcome, task).0;
            && (Pending(s.calls[w]).Some? ==> s.calls[w].id !in t.pairs)
            && (s.calls[w].CreatePut? ==> s.calls[w].task !in t.pairs.Values)
  {
    var call := s.calls[who];
    var t := Perform(s, call, outcome, task).0;
    if t.pairs != s.pairs { ValuesOfUpdate(s.pairs, call.id, call.task); }
  }

  lemma BeginKeepsInv(s: State, who: nat, call: Call)
    requires Inv(s) && Enabled(s, Begin(who, call))
    ensures Inv(Apply(s, Begin(who, call)))
  {
    var t := Apply(s, Begin(who, call));
    forall w | w in s.calls
      ensures CallOk(t, s.calls[w])
    {
      GrowingKeepsCall(s, t, s.calls[w]);
    }
  }

  /** Every step of every interleaving keeps the invariant. */
  lemma StepKeepsInv(s: State, step: Step)
    requires Inv(s) && Enabled(s, step)
    ensures Inv(Apply(s, step))
  {
    match step
    case Begin(who, call) => BeginKeepsInv(s, who, call);
    case Act(who, outcome, task) =>
      PerformKeepsPairs(s, s.calls[who], outcome, task);
      PerformKeepsNames(s, s.calls[who], outcome, task);
      PerformKeepsTasks(s, s.calls[who], outcome, task);
      ActKeepsCalls(s, who, outcome, task);
  }

  // ---------------------------------------------------------------- runs

  ghost predicate Path(states: seq<State>, steps: seq<Step>) {
    && |states| == |steps| + 1
    && forall i :: 0 <= i < |steps| ==> Enabled(states[i], steps[i]) && states[i + 1] == Apply(states[i], steps[i])
  }

  ghost predicate Run(states: seq<State>, steps: seq<Step>) {
    Path(states, steps) && states[0] == INITIAL
  }

  lemma {:induction false} PathKeepsInv(states: seq<State>, steps: seq<Step>, n: nat)
    requires Path(states, steps) && Inv(states[0]) && n < |states|
    ensures Inv(states[n])
  {
    if n == 0 {
    } else {
      PathKeepsInv(states, steps, n - 1);
      StepKeepsInv(states[n - 1], steps[n - 1]);
    }
  }

  lemma EveryRunKeepsInv(states: seq<State>, steps: seq<Step>, n: nat)
    requires Run(states, steps) && n < |states|
    ensures Inv(states[n])
  {
    PathKeepsInv(states, steps, n);
  }

  /** At every moment of every run: an active task is named by a stored check, no two
      checks share a task, and no two checks of an organization share a name. */
  lemma RunSafety(states: seq<State>, steps: seq<Step>, n: nat)
    requires Run(states, steps) && n < |states|
    ensures var s := states[n];
            && (forall t :: t in s.tasks && s.tasks[t].Active? ==> exists c :: c in s.checks && s.checks[c].task == t)
            && (forall a, b :: a in s.checks && b in s.checks && a != b ==>
                  s.checks[a].task != s.checks[b].task && s.checks[a].name != s.checks[b].name)
  {
    EveryRunKeepsInv(states, steps, n);
    var s := states[n];
    forall t | t in s.tasks && s.tasks[t].Active?
      ensures exists c :: c in s.checks && s.checks[c].task == t
    {
      var c :| c in s.pairs && s.pairs[c] == t;
      assert c in s.checks;
    }
  }

  /** One step never re-pairs a check, and never brings back a deleted one. */
  lemma StepKeepsHistory(s: State, step: Step)
    requires Inv(s) && Enabled(s, step)
    ensures var t := Apply(s, step);
            && (forall c :: c in s.pairs ==> c in t.pairs && t.pairs[c] == s.pairs[c])
            && (forall c :: c in s.pairs && c !in s.checks ==> c !in t.checks)
  {
    if step.Act? { PerformGrows(s, s.calls[step.who], step.outcome, step.task); }
  }

  lemma {:induction false} History(states: seq<State>, steps: seq<Step>, i: nat, j: nat, c: Id)
    requires Run(states, steps) && i <= j < |states| && c in states[i].pairs
    ensures c in states[j].pairs && states[j].pairs[c] == states[i].pairs[c]
    ensures c !in states[i].checks ==> c !in states[j].checks
    decreases j
  {
    if i == j {
    } else {
      History(states, steps, i, j - 1, c);
      EveryRunKeepsInv(states, steps, j - 1);
      StepKeepsHistory(states[j - 1], steps[j - 1]);
    }
  }

  /** Over a whole run a check keeps its task, and one that was deleted stays deleted. */
  lemma TaskNeverChanges(states: seq<State>, steps: seq<Step>, i: nat, j: nat, c: Id)
    requires Run(states, steps) && i <= j < |states| && c in states[i].checks
    ensures c in states[j].checks ==> states[j].checks[c].task == states[i].checks[c].task
    ensures c !in states[j].checks ==> forall k :: j <= k < |states| ==> c !in states[k].checks
  {
    EveryRunKeepsInv(states, steps, i);
    EveryRunKeepsInv(states, steps, j);
    History(states, steps, i, j, c);
    forall k | j <= k < |states|
      ensures c !in states[j].checks ==> c !in states[k].checks
    {
      History(states, steps, j, k, c);
    }
  }

  // ---------------------------------------------------------------- one call alone

  /** An undisturbed create whose calls all succeed stores the check and leaves its
      task in the requested state. */
  lemma CreateAlone(s: State, id: Id, name: Name, status: Status, task: Id)
    requires Inv(s) && id !in s.usedIds && task !in s.usedTasks && name !in s.names
    ensures var (s1, c1) := Perform(s, CreateStart(id, name, status), Done, task);
            var (s2, c2) := Perform(s1, c1, Done, task);
            var s3 := if c2.Returned? then s2 else Perform(s2, c2, Done, task).0;
            && s3.checks == s.checks[id := Check(name, task)]
            && s3.names == s.names[name := id]
            && s3.tasks == s.tasks[task := status]
  {
    assert id !in s.checks;
  }

  /** An undisturbed create under a taken name removes its task again: all is as before. */
  lemma CreateUnderTakenName(s: State, id: Id, name: Name, status: Status, task: Id)
    requires Inv(s) && task !in s.usedTasks && name in s.names
    ensures var (s1, c1) := Perform(s, CreateStart(id, name, status), Done, task);
            var (s2, c2) := Perform(s1, c1, Done, task);
            && !c2.Returned?
            && var s3 := Perform(s2, c2, Done, task).0;
            s3.checks == s.checks && s3.names == s.names && s3.tasks == s.tasks
  {
    assert task !in s.tasks;
    assert s.tasks[task := Inactive] - {task} == s.tasks;
  }

  /** A create whose check is refused, and whose clean-up succeeds, leaves both stores
      as they were. */
  lemma CompensationRestores(s: State, id: Id, name: Name, status: Status, task: Id)
    requires Inv(s) && task !in s.usedTasks
    ensures var (s1, c1) := Perform(s, CreateStart(id, name, status), Done, task);
            var (s2, c2) := Perform(s1, c1, Refused, task);
            var s3 := Perform(s2, c2, Done, task).0;
            s3.checks == s.checks && s3.names == s.names && s3.tasks == s.tasks
  {
    assert task !in s.tasks;
    assert s.tasks[task := Inactive] - {task} == s.tasks;
  }

  /** DeleteCheck with nobody else around and every call answered. */
  function DeleteCalls(s: State, id: Id): State {
    var (s1, c1) := Perform(s, DeleteStart(id), Done, 0);
    if c1.Returned? then s1
    else
      var (s2, c2) := Perform(s1, c1, Done, 0);
      if c2.Returned? then s2 else Perform(s2, c2, Done, 0).0
  }

  /** An undisturbed delete removes the check, its name and its task if the task is still
      there, and otherwise nothing at all. */
  lemma DeleteAlone(s: State, id: Id)
    requires Inv(s)
    ensures id !in s.checks ==> DeleteCalls(s, id) == s
    ensures id in s.checks ==>
            var t := DeleteCalls(s, id);
            && (id !in t.checks <==> s.checks[id].task in s.tasks)
            && (id !in t.checks ==>
                  && t.checks == s.checks - {id} && t.names == s.names - {s.checks[id].name}
                  && t.tasks == s.tasks - {s.checks[id].task})
            && (id in t.checks ==> t == s)
  {
  }

  /** A call that sees an error ends, except that a create removes its task first; a
      refused one has changed nothing. */
  lemma ErrorEndsCall(s: State, call: Call, outcome: Outcome, task: Id)
    requires !call.Returned? && !outcome.Done?
    ensures var (t, next) := Perform(s, call, outcome, task);
            && next == (if call.CreatePut? then CreateUndo(call.task) else Returned)
            && (outcome.Refused? ==> t == s)
  {
  }

  /** The check and the task a stage of a call is about. */
  function CheckOf(call: Call): Option<Id> {
    if call.CreatePut? || call.UpdateStart? || call.PatchStart? || call.DeleteOfCheck? then Some(call.id) else None
  }

  function TaskOf(call: Call, task: Id): Option<Id> {
    if call.CreateStart? then Some(task)
    else if call.CreateUndo? || call.SetStatus? || call.DeleteOfTask? then Some(call.task)
    else None
  }

  /** Whatever the outcome, no stage of a call touches another check or another task. */
  lemma OthersUntouched(s: State, call: Call, outcome: Outcome, task: Id, x: Id)
    requires !call.Returned?
    ensures var t := Perform(s, call, outcome, task).0;
            && (CheckOf(call) != Some(x) ==>
                  (x in t.checks <==> x in s.checks) && (x in s.checks ==> t.checks[x] == s.checks[x]))
            && (TaskOf(call, task) != Some(x) ==>
                  (x in t.tasks <==> x in s.tasks) && (x in s.tasks ==> t.tasks[x] == s.tasks[x]))
  {
  }

  /** UpdateCheck with nobody else around and every call answered. */
  function UpdateCalls(s: State, id: Id, text: Key, status: Status): State {
    var (s1, c1) := Perform(s, UpdateStart(id, text, status), Done, 0);
    if c1.Returned? then s1 else Perform(s1, c1, Done, 0).0
  }

  /** PatchCheck likewise. */
  function PatchCalls(s: State, id: Id, newText: Option<Key>, change: Option<Status>): State {
    var (s1, c1) := Perform(s, PatchStart(id, newText, change), Done, 0);
    if c1.Returned? then s1 else Perform(s1, c1, Done, 0).0
  }

  /** What an undisturbed change of name and status comes to: the check under the new name
      with its old task, the old name free, and the task, if it exists, in the new state. */
  ghost predicate ChangedTo(s: State, t: State, id: Id, name: Name, status: Option<Status>)
    requires id in s.checks
  {
    var was := s.checks[id];
    && t.checks == s.checks[id := Check(name, was.task)]
    && (forall n :: n in t.names <==> n == name || (n in s.names && n != was.name))
    && (forall n :: n in t.names ==> t.names[n] == if n == name then id else s.names[n])
    && t.tasks == (if status.Some? && was.task in s.tasks then s.tasks[was.task := status.value] else s.tasks)
  }

  /** Another check goes by this name. */
  ghost predicate NameOfOther(s: State, id: Id, name: Name) {
    exists c :: c in s.checks && c != id && s.checks[c].name == name
  }

  lemma NameFreeIff(s: State, id: Id, name: Name)
    requires NamesOk(s)
    ensures NameFree(s, name, id) <==> !NameOfOther(s, id, name)
  {
  }

  /** The stores after a change of name and status that went through. */
  function Changed(s: State, id: Id, name: Name, status: Option<Status>): State
    requires id in s.checks
  {
    var t := Rename(s, id, name);
    if s.checks[id].task !in s.tasks || status.None? then t
    else t.(tasks := s.tasks[s.checks[id].task := status.value])
  }

  lemma ChangedIsChangedTo(s: State, id: Id, name: Name, status: Option<Status>)
    requires NamesOk(s) && id in s.checks && NameFree(s, name, id)
    ensures ChangedTo(s, Changed(s, id, name, status), id, name, status)
  {
  }

  lemma UpdateCallsAre(s: State, id: Id, text: Key, status: Status)
    requires id in s.checks
    ensures var name := Name(s.checks[id].name.org, text);
            UpdateCalls(s, id, text, status) == if NameFree(s, name, id) then Changed(s, id, name, Some(status)) else s
  {
  }

  lemma PatchCallsAre(s: State, id: Id, newText: Option<Key>, change: Option<Status>)
    requires id in s.checks
    ensures var name := if newText.Some? then Name(s.checks[id].name.org, newText.value) else s.checks[id].name;
            PatchCalls(s, id, newText, change) == if NameFree(s, name, id) then Changed(s, id, name, change) else s
  {
  }

  /** An undisturbed update changes name and task state, unless the check is missing or the
      name belongs to another check, when it changes nothing. */
  lemma UpdateAlone(s: State, id: Id, text: Key, status: Status)
    requires NamesOk(s)
    ensures var t := UpdateCalls(s, id, text, status);
            if id !in s.checks then t == s
            else
              var name := Name(s.checks[id].name.org, text);
              if NameOfOther(s, id, name) then t == s else ChangedTo(s, t, id, name, Some(status))
  {
    if id in s.checks {
      var name := Name(s.checks[id].name.org, text);
      NameFreeIff(s, id, name);
      UpdateCallsAre(s, id, text, status);
      if NameFree(s, name, id) { ChangedIsChangedTo(s, id, name, Some(status)); }
    }
  }

  /** An undisturbed patch does the same for what it names and leaves the rest alone. */
  lemma PatchAlone(s: State, id: Id, newText: Option<Key>, change: Option<Status>)
    requires NamesOk(s)
    ensures var t := PatchCalls(s, id, newText, change);
            if id !in s.checks then t == s
            else
              var was := s.checks[id].name;
              var name := if newText.Some? then Name(was.org, newText.value) else was;
              if NameOfOther(s, id, name) then t == s else ChangedTo(s, t, id, name, change)
  {
    if id in s.checks {
      var was := s.checks[id].name;
      var name := if newText.Some? then Name(was.org, newText.value) else was;
      NameFreeIff(s, id, name);
      PatchCallsAre(s, id, newText, change);
      if NameFree(s, name, id) { ChangedIsChangedTo(s, id, name, change); }
    }
  }

  // ---------------------------------------------------------------- checks nobody can delete

  /** A stored check whose task is gone, with no call about to remove it. */
  ghost predicate Stranded(s: State, c: Id) {
    && c in s.checks && s.checks[c].task !in s.tasks
    && forall w :: w in s.calls ==> s.calls[w] != DeleteOfCheck(c)
  }

  lemma StepKeepsStranded(s: State, step: Step, c: Id)
    requires Inv(s) && Enabled(s, step) && Stranded(s, c)
    ensures Stranded(Apply(s, step), c)
  {
    ValuesContain(s.pairs, c);
    if step.Act? { PerformKeepsStranded(s, s.calls[step.who], step.outcome, step.task, c); }
  }

  lemma PerformKeepsStranded(s: State, call: Call, outcome: Outcome, task: Id, c: Id)
    requires PairsOk(s) && CallOk(s, call) && !call.Returned? && call != DeleteOfCheck(c)
    requires c in s.checks && s.checks[c].task !in s.tasks && s.checks[c].task in s.usedTasks
    requires call.CreateStart? ==> task !in s.usedTasks
    ensures var (t, next) := Perform(s, call, outcome, task);
            c in t.checks && t.checks[c].task !in t.tasks && next != DeleteOfCheck(c)
  {
  }

  lemma {:induction false} StrandedIsPermanent(states: seq<State>, steps: seq<Step>, i: nat, j: nat, c: Id)
    requires Path(states, steps) && Inv(states[0]) && i <= j < |states| && Stranded(states[i], c)
    ensures Stranded(states[j], c)
    decreases j
  {
    if i == j {
    } else {
      StrandedIsPermanent(states, steps, i, j - 1, c);
      PathKeepsInv(states, steps, j - 1);
      StepKeepsStranded(states[j - 1], steps[j - 1], c);
    }
  }

  /** Something can still happen that removes the check. */
  ghost predicate Removable(s: State, c: Id) {
    exists states: seq<State>, steps: seq<Step> :: Path(states, steps) && states[0] == s && c !in states[|steps|].checks
  }

  /** A stored check can still be removed, by whatever calls, exactly when it is not
      stranded. */
  lemma RemovableIff(s: State, c: Id)
    requires Inv(s) && c in s.checks
    ensures Removable(s, c) <==> !Stranded(s, c)
  {
    if Removable(s, c) {
      var states: seq<State>, steps: seq<Step> :| Path(states, steps) && states[0] == s && c !in states[|steps|].checks;
      if Stranded(s, c) { StrandedIsPermanent(states, steps, 0, |steps|, c); }
    } else if s.checks[c].task in s.tasks {
      NewDeleteRemoves(s, c);
    } else if exists w :: w in s.calls && s.calls[w] == DeleteOfCheck(c) {
      var w :| w in s.calls && s.calls[w] == DeleteOfCheck(c);
      var t := Apply(s, Act(w, Done, 0));
      assert Path([s, t], [Act(w, Done, 0)]);
    }
  }

  lemma NewDeleteRemoves(s: State, c: Id)
    requires c in s.checks && s.checks[c].task in s.tasks
    ensures Removable(s, c)
  {
    var w := FreshCaller(s.calls.Keys);
    var begin, act := Begin(w, DeleteStart(c)), Act(w, Done, 0);
    var s1 := Apply(s, begin);
    var s2 := Apply(s1, act);
    var s3 := Apply(s2, act);
    var s4 := Apply(s3, act);
    PathOfFour(s, s1, s2, s3, s4, begin, act, act, act);
  }

  lemma FreshCaller(used: set<nat>) returns (w: nat)
    ensures forall x :: x in used ==> x < w
  {
    if used == {} {
      w := 0;
    } else {
      var x :| x in used;
      var v := FreshCaller(used - {x});
      w := if v <= x then x + 1 else v;
      assert forall y :: y in used ==> y == x || y in used - {x};
    }
  }

  lemma PathOfFour(s: State, s1: State, s2: State, s3: State, s4: State, a: Step, b: Step, c: Step, d: Step)
    requires Enabled(s, a) && s1 == Apply(s, a) && Enabled(s1, b) && s2 == Apply(s1, b)
    requires Enabled(s2, c) && s3 == Apply(s2, c) && Enabled(s3, d) && s4 == Apply(s3, d)
    ensures Path([s, s1, s2, s3, s4], [a, b, c, d])
  {
  }

  /** A delete whose last write is refused strands the check. */
  lemma RefusedDeleteStrands(s: State, c: Id, w: nat)
    requires c in s.checks && s.checks[c].task in s.tasks && w !in s.calls
    requires forall v :: v in s.calls ==> s.calls[v] != DeleteOfCheck(c)
    ensures exists states: seq<State> ::
              && Path(states, [Begin(w, DeleteStart(c)), Act(w, Done, 0), Act(w, Done, 0), Act(w, Refused, 0)])
              && states[0] == s && Stranded(states[4], c)
              && w in states[4].calls && states[4].calls[w] == Returned
  {
    var s1 := Apply(s, Begin(w, DeleteStart(c)));
    var s2 := Apply(s1, Act(w, Done, 0));
    var s3 := Apply(s2, Act(w, Done, 0));
    var s4 := Apply(s3, Act(w, Refused, 0));
    PathOfFour(s, s1, s2, s3, s4, Begin(w, DeleteStart(c)), Act(w, Done, 0), Act(w, Done, 0), Act(w, Refused, 0));
    assert Stranded([s, s1, s2, s3, s4][4], c);
  }

  /** Only the call `w` moves. */
  ghost predicate OthersStand(s: State, t: State, w: nat) {
    w in t.calls && forall v :: v in t.calls && v != w ==> v in s.calls && t.calls[v] == s.calls[v]
  }

  lemma CreatedTask(s: State, c: Id, name: Name, status: Status, task: Id, w: nat)
    requires c !in s.usedIds && task !in s.usedTasks && w !in s.calls
    ensures var s1 := Apply(s, Begin(w, CreateStart(c, name, status)));
            && Enabled(s1, Act(w, Done, task))
            && var s2 := Apply(s1, Act(w, Done, task));
            && s2.checks == s.checks && s2.names == s.names && OthersStand(s, s2, w)
            && s2.calls[w] == CreatePut(c, name, status, task)
  {
  }

  lemma LostPut(s: State, c: Id, name: Name, status: Status, task: Id, w: nat)
    requires w in s.calls && s.calls[w] == CreatePut(c, name, status, task) && c !in s.checks && name !in s.names
    requires forall v :: v in s.calls ==> s.calls[v] != DeleteOfCheck(c)
    ensures var s1 := Apply(s, Act(w, Lost, 0));
            && Enabled(s1, Act(w, Done, 0))
            && var s2 := Apply(s1, Act(w, Done, 0));
            Stranded(s2, c) && OthersStand(s, s2, w) && s2.calls[w] == Returned
  {
  }

  /** A create that stored its check and lost the answer removes the task, returns an
      error and strands the check. */
  lemma LostAnswerStrands(s: State, c: Id, name: Name, status: Status, task: Id, w: nat)
    requires c !in s.usedIds && c !in s.checks && name !in s.names && task !in s.usedTasks && w !in s.calls
    requires forall v :: v in s.calls ==> s.calls[v] != DeleteOfCheck(c)
    ensures exists states: seq<State> ::
              && Path(states, [Begin(w, CreateStart(c, name, status)), Act(w, Done, task),
                               Act(w, Lost, 0), Act(w, Done, 0)])
              && states[0] == s && Stranded(states[4], c)
              && forall v :: v in states[4].calls ==> if v == w then states[4].calls[v] == Returned else v in s.calls
  {
    var a, b, d, e := Begin(w, CreateStart(c, name, status)), Act(w, Done, task), Act(w, Lost, 0), Act(w, Done, 0);
    CreatedTask(s, c, name, status, task, w);
    var s1 := Apply(s, a);
    var s2 := Apply(s1, b);
    LostPut(s2, c, name, status, task, w);
    var s3 := Apply(s2, d);
    var s4 := Apply(s3, e);
    PathOfFour(s, s1, s2, s3, s4, a, b, d, e);
    assert [s, s1, s2, s3, s4][4] == s4;
  }

  /** So a run from the empty stores strands a check and leaves no call unfinished. */
  lemma StrandedIsReachable()
    ensures exists states: seq<State>, steps: seq<Step> ::
              && Run(states, steps) && Stranded(states[|steps|], 1)
              && forall w :: w in states[|steps|].calls ==> states[|steps|].calls[w].Returned?
  {
    var steps := [Begin(0, CreateStart(1, Name(1, []), Active)), Act(0, Done, 7), Act(0, Lost, 0), Act(0, Done, 0)];
    LostAnswerStrands(INITIAL, 1, Name(1, []), Active, 7, 0);
    var states: seq<State> :|
      && Path(states, steps) && states[0] == INITIAL && Stranded(states[4], 1)
      && forall v :: v in states[4].calls ==> if v == 0 then states[4].calls[v] == Returned else v in INITIAL.calls;
    assert Run(states, steps);
  }
}
