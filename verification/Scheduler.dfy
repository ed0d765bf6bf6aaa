/** The scrape scheduler as a transition system: two loops, one goroutine for each
    running scrape, a bounded request queue, a pool of scrapers, a WaitGroup and the
    channel that Close closes. One step is one channel operation, one WaitGroup
    operation or one goroutine start. Accepted requests are numbered in order. */
module Scheduler {

  /** The loop that takes requests. */
  datatype Consumer =
    | Ready                                  // in the outer select
    | Holding(req: nat)                      // in the inner select, for a scraper
    | Acquired(req: nat, scraper: nat)       // in doScrape, before wg.Add
    | Counted(req: nat, scraper: nat)        // after wg.Add, before the goroutine starts
    | Returning                              // returned, wg.Done still to run
    | Gone

  /** The loop that lists targets. */
  datatype Producer = Unborn | Waiting | Gathering(left: nat) | Finishing | Ended

  /** A second Close panics on the closed channel, and takes the process with it. */
  datatype Closer = NotCalled | Blocked | Returned | Crashed

  /** `scraping` maps a scraper in use to its request; `leaving` counts scrape
      goroutines that gave their scraper back and have wg.Done still to run. */
  datatype State = State(
    capacity: nat, scrapers: nat,
    queue: seq<nat>, pool: seq<nat>, consumer: Consumer, producer: Producer,
    scraping: map<nat, nat>, leaving: nat, wg: int, done: bool, closer: Closer,
    accepted: nat, started: seq<nat>, finished: seq<nat>, dropped: seq<nat>)

  function UpTo(n: nat): (r: seq<nat>)
    ensures |r| == n && forall i :: 0 <= i < n ==> r[i] == i
  {
    seq(n, i => i)
  }

  /** NewScheduler just before it starts the second loop. */
  function Initial(capacity: nat, scrapers: nat): State {
    State(capacity, scrapers, [], UpTo(scrapers), Ready, Unborn, map[], 0, 1, false, NotCalled, 0, [], [], [])
  }

  datatype Step =
    | Launch | Tick(targets: nat) | Send | Handover | Backlog | GatherEnd | ProducerStop | ProducerDone
    | Take | ConsumerStop | Abandon | ConsumerDone | Acquire | Count | Spawn
    | Release(scraper: nat) | ScrapeDone | CloseCall | CloseReturn | CloseAgain

  predicate Enabled(s: State, step: Step) {
    !s.closer.Crashed? && Possible(s, step)
  }

  predicate Possible(s: State, step: Step) {
    match step
    case Launch => s.producer.Unborn?
    case Tick(_) => s.producer.Waiting?
    case Send => s.producer.Gathering? && s.producer.left > 0 && |s.queue| < s.capacity
    case Handover => s.producer.Gathering? && s.producer.left > 0 && s.queue == [] && s.consumer.Ready?
    case Backlog => s.producer.Gathering? && s.producer.left > 0 && |s.queue| >= s.capacity
    case GatherEnd => s.producer.Gathering? && s.producer.left == 0
    case ProducerStop => s.producer.Waiting? && s.done
    case ProducerDone => s.producer.Finishing?
    case Take => s.consumer.Ready? && s.queue != []
    case ConsumerStop => s.consumer.Ready? && s.done
    case Abandon => s.consumer.Holding? && s.done
    case ConsumerDone => s.consumer.Returning?
    case Acquire => s.consumer.Holding? && s.pool != []
    case Count => s.consumer.Acquired?
    case Spawn => s.consumer.Counted?
    case Release(scraper) => scraper in s.scraping && |s.pool| < s.scrapers
    case ScrapeDone => s.leaving > 0
    case CloseCall => s.closer.NotCalled? && !s.producer.Unborn?
    case CloseReturn => s.closer.Blocked? && s.wg == 0
    case CloseAgain => s.done
  }

  function Apply(s: State, step: Step): State
    requires Enabled(s, step)
  {
    match step
    case Launch => s.(producer := Waiting, wg := s.wg + 1)
    case Tick(targets) => s.(producer := Gathering(targets))
    case Send =>
      s.(producer := Gathering(s.producer.left - 1), queue := s.queue + [s.accepted], accepted := s.accepted + 1)
    case Handover =>
      s.(producer := Gathering(s.producer.left - 1), consumer := Holding(s.accepted), accepted := s.accepted + 1)
    case Backlog => s.(producer := Gathering(s.producer.left - 1))
    case GatherEnd => s.(producer := Waiting)
    case ProducerStop => s.(producer := Finishing)
    case ProducerDone => s.(producer := Ended, wg := s.wg - 1)
    case Take => s.(consumer := Holding(s.queue[0]), queue := s.queue[1..])
    case ConsumerStop => s.(consumer := Returning)
    case Abandon => s.(consumer := Returning, dropped := s.dropped + [s.consumer.req])
    case ConsumerDone => s.(consumer := Gone, wg := s.wg - 1)
    case Acquire => s.(consumer := Acquired(s.consumer.req, s.pool[0]), pool := s.pool[1..])
    case Count => s.(consumer := Counted(s.consumer.req, s.consumer.scraper), wg := s.wg + 1)
    case Spawn =>
      s.(consumer := Ready, scraping := s.scraping[s.consumer.scraper := s.consumer.req],
         started := s.started + [s.consumer.req])
    case Release(scraper) =>
      s.(scraping := s.scraping - {scraper}, pool := s.pool + [scraper], leaving := s.leaving + 1,
         finished := s.finished + [s.scraping[scraper]])
    case ScrapeDone => s.(leaving := s.leaving - 1, wg := s.wg - 1)
    case CloseCall => s.(done := true, closer := Blocked)
    case CloseReturn => s.(closer := Returned)
    case CloseAgain => s.(closer := Crashed)
  }

  // ---------------------------------------------------------------- invariant

  function HeldScraper(c: Consumer): set<nat> {
    if c.Acquired? || c.Counted? then {c.scraper} else {}
  }

  function HeldRequest(c: Consumer): seq<nat> {
    if c.Holding? || c.Acquired? || c.Counted? then [c.req] else []
  }

  ghost predicate NoRepeats(s: seq<nat>) {
    forall i, j :: 0 <= i < j < |s| ==> s[i] != s[j]
  }

  function Elements(s: seq<nat>): set<nat> {
    set x | x in s
  }

  /** Every scraper is in exactly one place: the pool, the loop's hands or one scrape. */
  ghost predicate ScrapersConserved(s: State) {
    && NoRepeats(s.pool)
    && Elements(s.pool) !! s.scraping.Keys !! HeldScraper(s.consumer)
    && Elements(s.pool) + s.scraping.Keys + HeldScraper(s.consumer) == Elements(UpTo(s.scrapers))
  }

  /** The accepted requests, in order, are those started, then the one held or dropped,
      then those queued. */
  ghost predicate RequestsConserved(s: State) {
    && s.started + s.dropped + HeldRequest(s.consumer) + s.queue == UpTo(s.accepted)
    && (s.dropped != [] ==> s.consumer.Returning? || s.consumer.Gone?)
  }

  /** A started request is being scraped or has been, never both, never twice. */
  ghost predicate StartedAccounted(s: State) {
    && NoRepeats(s.finished)
    && Elements(s.finished) !! s.scraping.Values
    && Elements(s.finished) + s.scraping.Values == Elements(s.started)
    && (forall a, b :: a in s.scraping && b in s.scraping && s.scraping[a] == s.scraping[b] ==> a == b)
  }

  function Live(s: State): int {
    (if s.consumer.Gone? then 0 else 1)
    + (if s.consumer.Counted? then 1 else 0)
    + (if s.producer.Unborn? || s.producer.Ended? then 0 else 1)
    + |s.scraping| + s.leaving
  }

  ghost predicate Inv(s: State) {
    && ScrapersConserved(s) && RequestsConserved(s) && StartedAccounted(s)
    && s.wg == Live(s) && Phased(s)
    && (s.closer.Returned? ==> s.wg == 0)
  }

  /** Nobody leaves before Close was called, and Close needs the second loop started. */
  ghost predicate Phased(s: State) {
    && |s.queue| <= s.capacity
    && (s.done <==> !s.closer.NotCalled?)
    && (s.consumer.Returning? || s.consumer.Gone? ==> s.done)
    && (s.producer.Finishing? || s.producer.Ended? ==> s.done)
    && (s.done ==> !s.producer.Unborn?)
  }

  lemma InitialInv(capacity: nat, scrapers: nat)
    ensures Inv(Initial(capacity, scrapers))
  {
  }

  lemma ElementsAppend(s: seq<nat>, x: nat)
    ensures Elements(s + [x]) == Elements(s) + {x}
  {
  }

  // Each conserved quantity is moved by a few steps only; every other step leaves the
  // fields it is made of alone.

  lemma OthersLeaveScrapers(s: State, step: Step)
    requires Enabled(s, step) && !step.Acquire? && !step.Release? && !step.Spawn?
    ensures var t := Apply(s, step);
            && t.pool == s.pool && t.scraping == s.scraping && t.scrapers == s.scrapers
            && HeldScraper(t.consumer) == HeldScraper(s.consumer)
  {
  }

  lemma AcquireKeepsScrapers(s: State)
    requires ScrapersConserved(s) && Enabled(s, Acquire)
    ensures ScrapersConserved(Apply(s, Acquire))
  {
    var t := Apply(s, Acquire);
    assert s.pool == [s.pool[0]] + s.pool[1..];
    assert Elements(s.pool) == {s.pool[0]} + Elements(t.pool);
    assert s.pool[0] !in t.pool;
  }

  lemma ReleaseKeepsScrapers(s: State, scraper: nat)
    requires ScrapersConserved(s) && Enabled(s, Release(scraper))
    ensures ScrapersConserved(Apply(s, Release(scraper)))
  {
    ElementsAppend(s.pool, scraper);
  }

  lemma SpawnKeepsScrapers(s: State)
    requires ScrapersConserved(s) && Enabled(s, Spawn)
    ensures ScrapersConserved(Apply(s, Spawn))
  {
    assert Apply(s, Spawn).scraping.Keys == s.scraping.Keys + {s.consumer.scraper};
  }

  lemma StepKeepsScrapers(s: State, step: Step)
    requires ScrapersConserved(s) && Enabled(s, step)
    ensures ScrapersConserved(Apply(s, step))
  {
    if step.Acquire? {
      AcquireKeepsScrapers(s);
    } else if step.Release? {
      ReleaseKeepsScrapers(s, step.scraper);
    } else if step.Spawn? {
      SpawnKeepsScrapers(s);
    } else {
      OthersLeaveScrapers(s, step);
    }
  }

  predicate MovesRequests(step: Step) {
    step.Send? || step.Handover? || step.Take? || step.Abandon? || step.Spawn?
  }

  lemma OthersLeaveRequests(s: State, step: Step)
    requires Enabled(s, step) && !MovesRequests(step)
    ensures var t := Apply(s, step);
            && t.started == s.started && t.dropped == s.dropped && t.queue == s.queue && t.accepted == s.accepted
            && HeldRequest(t.consumer) == HeldRequest(s.consumer)
            && (s.consumer.Returning? || s.consumer.Gone? ==> t.consumer.Returning? || t.consumer.Gone?)
  {
  }

  /** The requests accounted for, in order. */
  function Accounted(s: State): seq<nat> {
    s.started + s.dropped + HeldRequest(s.consumer) + s.queue
  }

  lemma NewRequest(s: State, step: Step)
    requires RequestsConserved(s) && Enabled(s, step) && (step.Send? || step.Handover?)
    ensures RequestsConserved(Apply(s, step))
  {
    var t := Apply(s, step);
    assert UpTo(t.accepted) == UpTo(s.accepted) + [s.accepted];
    assert Accounted(t) == Accounted(s) + [s.accepted];
  }

  lemma Regroup(started: seq<nat>, dropped: seq<nat>, x: nat, queue: seq<nat>)
    ensures started + dropped + [] + ([x] + queue) == started + dropped + [x] + queue
    ensures started + (dropped + [x]) + [] + queue == started + dropped + [x] + queue
    ensures (started + [x]) + [] + [] + queue == started + [] + [x] + queue
  {
  }

  lemma MovedRequest(s: State, step: Step)
    requires RequestsConserved(s) && Enabled(s, step) && (step.Take? || step.Abandon? || step.Spawn?)
    ensures RequestsConserved(Apply(s, step))
  {
    if step.Take? {
      assert s.queue == [s.queue[0]] + s.queue[1..];
      Regroup(s.started, s.dropped, s.queue[0], s.queue[1..]);
    } else {
      Regroup(s.started, s.dropped, s.consumer.req, s.queue);
    }
  }

  lemma StepKeepsRequests(s: State, step: Step)
    requires RequestsConserved(s) && Enabled(s, step)
    ensures RequestsConserved(Apply(s, step))
  {
    if step.Send? || step.Handover? {
      NewRequest(s, step);
    } else if MovesRequests(step) {
      MovedRequest(s, step);
    } else {
      OthersLeaveRequests(s, step);
    }
  }

  /** The request about to start has never started. */
  lemma HeldNotStarted(s: State)
    requires RequestsConserved(s) && s.consumer.Counted?
    ensures s.consumer.req !in s.started
  {
    var all := s.started + s.dropped + HeldRequest(s.consumer) + s.queue;
    var n := |s.started| + |s.dropped|;
    assert all[n] == s.consumer.req;
    forall i | 0 <= i < |s.started|
      ensures s.started[i] != s.consumer.req
    {
      assert all[i] == s.started[i];
    }
  }

  lemma SpawnKeepsStarted(s: State)
    requires StartedAccounted(s) && ScrapersConserved(s) && RequestsConserved(s) && Enabled(s, Spawn)
    ensures StartedAccounted(Apply(s, Spawn))
  {
    var t := Apply(s, Spawn);
    var r := s.consumer.req;
    HeldNotStarted(s);
    ElementsAppend(s.started, r);
    assert t.scraping.Values == s.scraping.Values + {r} by { ValuesAdd(s.scraping, s.consumer.scraper, r); }
    assert r !in Elements(s.started);
  }

  lemma ReleaseKeepsStarted(s: State, scraper: nat)
    requires StartedAccounted(s) && Enabled(s, Release(scraper))
    ensures StartedAccounted(Apply(s, Release(scraper)))
  {
    var t := Apply(s, Release(scraper));
    var r := s.scraping[scraper];
    ElementsAppend(s.finished, r);
    assert t.scraping.Values == s.scraping.Values - {r} by { ValuesRemove(s.scraping, scraper); }
    assert r in s.scraping.Values;
    assert forall i :: 0 <= i < |s.finished| ==> s.finished[i] in Elements(s.finished);
  }

  lemma OthersLeaveStarted(s: State, step: Step)
    requires Enabled(s, step) && !step.Spawn? && !step.Release?
    ensures var t := Apply(s, step);
            t.finished == s.finished && t.scraping == s.scraping && t.started == s.started
  {
  }

  lemma StepKeepsStarted(s: State, step: Step)
    requires StartedAccounted(s) && ScrapersConserved(s) && RequestsConserved(s) && Enabled(s, step)
    ensures StartedAccounted(Apply(s, step))
  {
    if step.Spawn? {
      SpawnKeepsStarted(s);
    } else if step.Release? {
      ReleaseKeepsStarted(s, step.scraper);
    } else {
      OthersLeaveStarted(s, step);
    }
  }

  lemma ValuesAdd(m: map<nat, nat>, k: nat, v: nat)
    requires k !in m
    ensures m[k := v].Values == m.Values + {v}
  {
    var n := m[k := v];
    assert n[k] == v;
    forall x | x in m.Values
      ensures x in n.Values
    {
      var j :| j in m && m[j] == x;
      assert n[j] == x;
    }
  }

  lemma ValuesRemove(m: map<nat, nat>, k: nat)
    requires k in m
    requires forall a, b :: a in m && b in m && m[a] == m[b] ==> a == b
    ensures (m - {k}).Values == m.Values - {m[k]}
  {
    var n := m - {k};
    forall x | x in m.Values && x != m[k]
      ensures x in n.Values
    {
      var j :| j in m && m[j] == x;
      assert n[j] == x;
    }
  }

  lemma StepKeepsCount(s: State, step: Step)
    requires s.wg == Live(s) && Enabled(s, step)
    requires s.consumer.Counted? ==> s.consumer.scraper !in s.scraping
    ensures Apply(s, step).wg == Live(Apply(s, step))
  {
    var t := Apply(s, step);
    match step {
      case Spawn =>
        assert |t.scraping| == |s.scraping| + 1 by { SizeAdd(s.scraping, s.consumer.scraper, s.consumer.req); }
      case Release(scraper) => assert |t.scraping| == |s.scraping| - 1 by { SizeRemove(s.scraping, scraper); }
      case _ =>
    }
  }

  lemma SizeAdd(m: map<nat, nat>, k: nat, v: nat)
    requires k !in m
    ensures |m[k := v]| == |m| + 1
  {
    assert m[k := v].Keys == m.Keys + {k};
  }

  lemma SizeRemove(m: map<nat, nat>, k: nat)
    requires k in m
    ensures |m - {k}| == |m| - 1
  {
    assert (m - {k}).Keys == m.Keys - {k};
    assert |m.Keys - {k}| == |m.Keys| - 1;
  }

  /** Queue length and number of scrapers are fixed. */
  lemma StepKeepsSizes(s: State, step: Step)
    requires Enabled(s, step)
    ensures Apply(s, step).capacity == s.capacity && Apply(s, step).scrapers == s.scrapers
  {
  }

  lemma StepKeepsPhases(s: State, step: Step)
    requires Phased(s) && Enabled(s, step)
    ensures Phased(Apply(s, step))
  {
  }

  lemma NobodyLive(s: State)
    requires Live(s) == 0 && Phased(s) && s.done
    ensures s.consumer.Gone? && s.producer.Ended? && s.scraping == map[] && s.leaving == 0
  {
    assert |s.scraping| == 0;
  }

  lemma QuietSteps(s: State, step: Step)
    requires s.consumer.Gone? && s.producer.Ended? && s.scraping == map[] && s.leaving == 0
    requires s.done && s.closer.Returned?
    ensures Enabled(s, step) <==> step.CloseAgain?
  {
  }

  lemma StepKeepsReturned(s: State, step: Step)
    requires s.wg == Live(s) && Phased(s) && (s.closer.Returned? ==> s.wg == 0) && Enabled(s, step)
    ensures Apply(s, step).closer.Returned? ==> Apply(s, step).wg == 0
  {
    if s.closer.Returned? {
      NobodyLive(s);
      QuietSteps(s, step);
    }
  }

  /** Every step of every goroutine keeps the invariant. */
  lemma StepKeepsInv(s: State, step: Step)
    requires Inv(s) && Enabled(s, step)
    ensures Inv(Apply(s, step))
  {
    StepKeepsScrapers(s, step);
    StepKeepsRequests(s, step);
    StepKeepsStarted(s, step);
    StepKeepsCount(s, step);
    StepKeepsPhases(s, step);
    StepKeepsReturned(s, step);
  }

  // ---------------------------------------------------------------- runs

  ghost predicate Linked(states: seq<State>, steps: seq<Step>, i: int)
    requires |states| == |steps| + 1
  {
    0 <= i < |steps| ==> Enabled(states[i], steps[i]) && states[i + 1] == Apply(states[i], steps[i])
  }

  ghost predicate Run(states: seq<State>, steps: seq<Step>) {
    && |states| == |steps| + 1
    && states[0] == Initial(states[0].capacity, states[0].scrapers)
    && forall i :: 0 <= i < |steps| ==> Linked(states, steps, i)
  }

  lemma RunStep(states: seq<State>, steps: seq<Step>, k: nat)
    requires Run(states, steps) && k < |steps|
    ensures Enabled(states[k], steps[k]) && states[k + 1] == Apply(states[k], steps[k])
  {
    assert Linked(states, steps, k);
  }

  lemma {:induction false} EveryRunKeepsInv(states: seq<State>, steps: seq<Step>, n: nat)
    requires Run(states, steps) && n < |states|
    ensures Inv(states[n])
  {
    if n == 0 {
      StartInv(states, steps);
    } else {
      EveryRunKeepsInv(states, steps, n - 1);
      LinkKeepsInv(states, steps, n);
    }
  }

  lemma StartInv(states: seq<State>, steps: seq<Step>)
    requires Run(states, steps)
    ensures Inv(states[0])
  {
    InitialInv(states[0].capacity, states[0].scrapers);
  }

  lemma LinkKeepsInv(states: seq<State>, steps: seq<Step>, n: nat)
    requires Run(states, steps) && 0 < n < |states| && Inv(states[n - 1])
    ensures Inv(states[n])
  {
    RunStep(states, steps, n - 1);
    StepKeepsInv(states[n - 1], steps[n - 1]);
  }

  lemma {:induction false} ElementsSize(s: seq<nat>)
    requires NoRepeats(s)
    ensures |Elements(s)| == |s|
  {
    if s == [] {
    } else {
      var init := s[..|s| - 1];
      ElementsSize(init);
      assert s == init + [s[|s| - 1]];
      ElementsAppend(init, s[|s| - 1]);
    }
  }

  /** Pooled, held and working scrapers always number N, so at most N scrapes run. */
  lemma ScraperCount(s: State)
    requires ScrapersConserved(s)
    ensures |s.pool| + |s.scraping| + |HeldScraper(s.consumer)| == s.scrapers
    ensures |s.scraping| <= s.scrapers
  {
    ElementsSize(s.pool);
    ElementsSize(UpTo(s.scrapers));
    var a, b, c := Elements(s.pool), s.scraping.Keys, HeldScraper(s.consumer);
    assert |a + b| == |a| + |b| && |a + b + c| == |a + b| + |c|;
  }

  /** Giving a scraper back never blocks. */
  lemma ReleaseNeverBlocks(s: State, scraper: nat)
    requires Inv(s) && scraper in s.scraping && !s.closer.Crashed?
    ensures Enabled(s, Release(scraper))
  {
    ScraperCount(s);
    assert |s.scraping| >= 1 by { SizeRemove(s.scraping, scraper); }
  }

  /** Where a request is. */
  datatype Place = Queued | Held | Scraping | Finished | Dropped

  ghost predicate At(s: State, r: nat, p: Place) {
    match p
    case Queued => r in s.queue
    case Held => r in HeldRequest(s.consumer)
    case Scraping => r in s.scraping.Values
    case Finished => r in s.finished
    case Dropped => r in s.dropped
  }

  /** Started requests are those being scraped or finished, not both. */
  lemma StartedPlace(s: State, r: nat)
    requires StartedAccounted(s)
    ensures r in s.started <==> At(s, r, Finished) || At(s, r, Scraping)
    ensures !(At(s, r, Finished) && At(s, r, Scraping))
  {
    assert r in s.started <==> r in Elements(s.started);
    assert r in s.finished <==> r in Elements(s.finished);
  }

  /** Every accepted request is in exactly one place, and nothing else is anywhere. */
  lemma ExactlyOnePlace(s: State, r: nat)
    requires RequestsConserved(s) && StartedAccounted(s)
    ensures r < s.accepted <==> exists p :: At(s, r, p)
    ensures forall p, q :: At(s, r, p) && At(s, r, q) ==> p == q
  {
    StartedPlace(s, r);
    var b, c, d := s.dropped, HeldRequest(s.consumer), s.queue;
    PartsAreApart(s.started, b, c, d, r);
    InOneOfFour(s.started, b, c, d, r);
    assert r < s.accepted <==> r in UpTo(s.accepted) by { if r < s.accepted { assert UpTo(s.accepted)[r] == r; } }
    assert r < s.accepted ==>
        At(s, r, Finished) || At(s, r, Scraping) || At(s, r, Dropped) || At(s, r, Held) || At(s, r, Queued);
  }

  lemma InOneOfFour(a: seq<nat>, b: seq<nat>, c: seq<nat>, d: seq<nat>, r: nat)
    ensures r in a + b + c + d <==> r in a || r in b || r in c || r in d
  {
    assert r in a + b <==> r in a || r in b;
    assert r in a + b + c <==> r in a + b || r in c;
  }

  lemma PartsAreApart(a: seq<nat>, b: seq<nat>, c: seq<nat>, d: seq<nat>, r: nat)
    requires NoRepeats(a + b + c + d)
    ensures !(r in a && (r in b || r in c || r in d)) && !(r in b && (r in c || r in d)) && !(r in c && r in d)
  {
    ApartTwo(a + b + c, d, r);
    ApartTwo(a + b, c, r);
    ApartTwo(a, b, r);
  }

  lemma ApartTwo(a: seq<nat>, b: seq<nat>, r: nat)
    requires NoRepeats(a + b)
    ensures NoRepeats(a) && !(r in a && r in b)
  {
    var s := a + b;
    assert forall i :: 0 <= i < |a| ==> s[i] == a[i];
    assert forall j :: 0 <= j < |b| ==> s[|a| + j] == b[j];
  }

  /** The WaitGroup is never raised from zero. */
  lemma CountNeverRaisedFromZero(s: State, step: Step)
    requires Inv(s) && Enabled(s, step) && Apply(s, step).wg > s.wg
    ensures s.wg > 0
  {
    RaisedBy(s, step);
  }

  lemma RaisedBy(s: State, step: Step)
    requires Enabled(s, step) && Apply(s, step).wg > s.wg
    ensures s.producer.Unborn? || s.consumer.Acquired?
  {
  }

  /** When Close has returned both loops are gone, nothing is being scraped, every
      started scrape has finished and all scrapers are back in the pool. */
  lemma ClosedMeansQuiet(s: State)
    requires Inv(s) && s.closer.Returned?
    ensures s.consumer.Gone? && s.producer.Ended? && s.scraping == map[] && s.leaving == 0
    ensures |s.pool| == s.scrapers
    ensures Elements(s.started) == Elements(s.finished)
  {
    NobodyLive(s);
    ScraperCount(s);
  }

  /** Once Close has returned the only thing that can happen is a second Close. */
  lemma ClosedIsFinal(s: State, step: Step)
    requires Inv(s) && s.closer.Returned?
    ensures Enabled(s, step) <==> step.CloseAgain?
  {
    NobodyLive(s);
    QuietSteps(s, step);
  }

  lemma CrashStep(s: State, step: Step)
    requires Enabled(s, step)
    ensures Apply(s, step).closer.Crashed? <==> step.CloseAgain?
    ensures step.CloseAgain? ==> s.done
  {
  }

  /** Over a whole run the process has crashed exactly when Close was called a second
      time, and nothing happens afterwards. */
  lemma {:induction false} CrashesIff(states: seq<State>, steps: seq<Step>, n: nat)
    requires Run(states, steps) && n < |states|
    ensures states[n].closer.Crashed? <==> exists i :: 0 <= i < n && steps[i].CloseAgain?
    ensures states[n].closer.Crashed? ==> n == |steps|
  {
    if n == 0 {
    } else {
      CrashesIff(states, steps, n - 1);
      RunStep(states, steps, n - 1);
      CrashStep(states[n - 1], steps[n - 1]);
    }
    if n < |steps| { RunStep(states, steps, n); }
  }

  /** Close called twice, right after the start. */
  lemma SecondCloseCrashes(capacity: nat, scrapers: nat)
    ensures exists states: seq<State> ::
              Run(states, [Launch, CloseCall, CloseAgain]) && states[0] == Initial(capacity, scrapers)
              && states[3].closer.Crashed?
  {
    var s0 := Initial(capacity, scrapers);
    var s1 := Apply(s0, Launch);
    var s2 := Apply(s1, CloseCall);
    var s3 := Apply(s2, CloseAgain);
    assert Run([s0, s1, s2, s3], [Launch, CloseCall, CloseAgain]);
  }

  // ---------------------------------------------------------------- shutting down

  function ProducerWork(p: Producer): nat {
    match p
    case Gathering(left) => left + 3
    case Waiting => 2
    case Finishing => 1
    case _ => 0
  }

  function ConsumerWork(c: Consumer): nat {
    match c
    case Acquired(_, _) => 6
    case Counted(_, _) => 5
    case Holding(_) => 2
    case Ready => 2
    case Returning => 1
    case Gone => 0
  }

  /** How much a closing scheduler has left to do if nothing new is taken on. */
  function Work(s: State): nat {
    ProducerWork(s.producer) + ConsumerWork(s.consumer) + 2 * |s.scraping| + s.leaving
  }

  /** The step that brings the shutdown nearer. */
  ghost function ShutdownStep(s: State): Step {
    if s.producer.Gathering? then
      (if s.producer.left == 0 then GatherEnd else if |s.queue| < s.capacity then Send else Backlog)
    else if s.producer.Waiting? then ProducerStop
    else if s.producer.Finishing? then ProducerDone
    else match s.consumer
      case Acquired(_, _) => Count
      case Counted(_, _) => Spawn
      case Holding(_) => Abandon
      case Ready => ConsumerStop
      case Returning => ConsumerDone
      case Gone =>
        if s.scraping.Keys != {} then (var scraper :| scraper in s.scraping; Release(scraper))
        else if s.leaving > 0 then ScrapeDone
        else CloseReturn
  }

  /** While Close waits, a step that brings its return nearer is always possible. */
  lemma ShutdownProgress(s: State)
    requires Inv(s) && s.closer.Blocked?
    ensures Enabled(s, ShutdownStep(s))
    ensures var t := Apply(s, ShutdownStep(s));
            t.closer.Returned? || (t.closer.Blocked? && Work(t) < Work(s))
  {
    ShutdownEnabled(s);
    assert s.consumer.Counted? ==> s.consumer.scraper !in s.scraping;
    ShutdownShrinks(s);
  }

  lemma ShutdownEnabled(s: State)
    requires Inv(s) && s.closer.Blocked?
    ensures Enabled(s, ShutdownStep(s))
  {
    var step := ShutdownStep(s);
    if step.Release? { ReleaseNeverBlocks(s, step.scraper); }
    if step.CloseReturn? { assert |s.scraping| == 0; }
  }

  /** The shutdown step is one of these, and each of them shrinks the work. */
  lemma LoopStepShrinks(s: State, step: Step)
    requires Enabled(s, step) && s.closer.Blocked?
    requires step.GatherEnd? || step.Send? || step.Backlog? || step.ProducerStop? || step.ProducerDone?
             || step.Count? || step.Abandon? || step.ConsumerStop? || step.ConsumerDone? || step.ScrapeDone?
    ensures var t := Apply(s, step);
            t.closer.Blocked? && Work(t) < Work(s)
  {
  }

  lemma ShutdownShrinks(s: State)
    requires Enabled(s, ShutdownStep(s)) && s.closer.Blocked?
    requires s.consumer.Counted? ==> s.consumer.scraper !in s.scraping
    ensures var t := Apply(s, ShutdownStep(s));
            t.closer.Returned? || (t.closer.Blocked? && Work(t) < Work(s))
  {
    var step := ShutdownStep(s);
    if step.Spawn? {
      SizeAdd(s.scraping, s.consumer.scraper, s.consumer.req);
    } else if step.Release? {
      SizeRemove(s.scraping, step.scraper);
    } else if !step.CloseReturn? {
      LoopStepShrinks(s, step);
    }
  }

  ghost predicate Reaches(s: State, t: State, steps: seq<Step>)
    decreases |steps|
  {
    if steps == [] then s == t
    else Enabled(s, steps[0]) && Reaches(Apply(s, steps[0]), t, steps[1..])
  }

  /** From every reachable state in which Close waits, Close can still return. */
  lemma {:induction false} CloseCanReturn(s: State) returns (t: State, steps: seq<Step>)
    requires Inv(s) && s.closer.Blocked?
    ensures Reaches(s, t, steps) && t.closer.Returned?
    decreases Work(s)
  {
    var step := ShutdownStep(s);
    ShutdownProgress(s);
    StepKeepsInv(s, step);
    var m := Apply(s, step);
    if m.closer.Returned? {
      t, steps := m, [step];
      assert steps[1..] == [];
    } else {
      var rest;
      t, rest := CloseCanReturn(m);
      steps := [step] + rest;
      assert steps[1..] == rest;
    }
  }

  // ---------------------------------------------------------------- delivering targets

  function Times(step: Step, n: nat): (r: seq<Step>)
    ensures |r| == n && forall i :: 0 <= i < n ==> r[i] == step
  {
    seq(n, _ => step)
  }

  function From(first: nat, n: nat): (r: seq<nat>)
    ensures |r| == n && forall i :: 0 <= i < n ==> r[i] == first + i
  {
    seq(n, i => first + i)
  }

  lemma {:induction false} ReachesAppend(s: State, t: State, u: State, a: seq<Step>, b: seq<Step>)
    requires Reaches(s, t, a) && Reaches(t, u, b)
    ensures Reaches(s, u, a + b)
    decreases |a|
  {
    if a == [] {
      assert a + b == b;
    } else {
      assert (a + b)[1..] == a[1..] + b;
      ReachesAppend(Apply(s, a[0]), t, u, a[1..], b);
    }
  }

  /** With room in the queue every target left over is sent. */
  lemma {:induction false} SendsReach(s: State, n: nat)
    requires s.producer == Gathering(n) && |s.queue| + n <= s.capacity && !s.closer.Crashed?
    ensures Reaches(s, s.(producer := Gathering(0), queue := s.queue + From(s.accepted, n), accepted := s.accepted + n),
                    Times(Send, n))
    decreases n
  {
    if n == 0 {
      assert s.queue + From(s.accepted, 0) == s.queue;
    } else {
      var t := Apply(s, Send);
      SendsReach(t, n - 1);
      assert Times(Send, n)[1..] == Times(Send, n - 1);
      assert t.queue + From(t.accepted, n - 1) == s.queue + From(s.accepted, n);
    }
  }

  /** A ready consumer takes a target past an empty queue, also one without room; with the
      queue full a target is skipped. */
  lemma OffersPossible(s: State)
    requires s.producer.Gathering? && s.producer.left > 0 && !s.closer.Crashed?
    ensures s.queue == [] && s.consumer.Ready? ==>
              Reaches(s, s.(producer := Gathering(s.producer.left - 1), consumer := Holding(s.accepted),
                            accepted := s.accepted + 1), [Handover])
    ensures |s.queue| >= s.capacity ==> Reaches(s, s.(producer := Gathering(s.producer.left - 1)), [Backlog])
  {
    assert [Handover][1..] == [] && [Backlog][1..] == [];
  }

  /** A round over n targets with room for them queues exactly those, in order. */
  lemma TickDelivers(s: State, n: nat)
    requires s.producer.Waiting? && |s.queue| + n <= s.capacity && !s.closer.Crashed?
    ensures Reaches(s, s.(queue := s.queue + From(s.accepted, n), accepted := s.accepted + n),
                    [Tick(n)] + Times(Send, n) + [GatherEnd])
  {
    var a := Apply(s, Tick(n));
    var b := a.(producer := Gathering(0), queue := s.queue + From(s.accepted, n), accepted := s.accepted + n);
    var c := s.(queue := s.queue + From(s.accepted, n), accepted := s.accepted + n);
    SendsReach(a, n);
    assert [Tick(n)][1..] == [];
    assert Reaches(s, a, [Tick(n)]);
    ReachesAppend(s, a, b, [Tick(n)], Times(Send, n));
    assert [GatherEnd][1..] == [];
    assert Reaches(b, c, [GatherEnd]);
    ReachesAppend(s, b, c, [Tick(n)] + Times(Send, n), [GatherEnd]);
  }

  /** The oldest queued request is started on the first pooled scraper. */
  lemma QueuedCanStart(s: State)
    requires s.consumer.Ready? && s.queue != [] && s.pool != [] && !s.closer.Crashed?
    ensures Reaches(s, s.(queue := s.queue[1..], pool := s.pool[1..], wg := s.wg + 1,
                          scraping := s.scraping[s.pool[0] := s.queue[0]], started := s.started + [s.queue[0]]),
                    [Take, Acquire, Count, Spawn])
  {
    var a := Apply(s, Take);
    var b := Apply(a, Acquire);
    var c := Apply(b, Count);
    var d := Apply(c, Spawn);
    assert [Spawn][1..] == [] && Reaches(c, d, [Spawn]);
    assert [Count, Spawn][1..] == [Spawn] && Reaches(b, d, [Count, Spawn]);
    assert [Acquire, Count, Spawn][1..] == [Count, Spawn] && Reaches(a, d, [Acquire, Count, Spawn]);
    assert [Take, Acquire, Count, Spawn][1..] == [Acquire, Count, Spawn];
  }

  /** The state after a scrape has ended. */
  function AfterScrape(s: State, scraper: nat): State
    requires scraper in s.scraping
  {
    s.(scraping := s.scraping - {scraper}, pool := s.pool + [scraper], wg := s.wg - 1,
       finished := s.finished + [s.scraping[scraper]])
  }

  lemma ReleaseThenDone(s: State, scraper: nat)
    requires Enabled(s, Release(scraper))
    ensures Reaches(s, AfterScrape(s, scraper), [Release(scraper), ScrapeDone])
  {
    var a := Apply(s, Release(scraper));
    var b := Apply(a, ScrapeDone);
    assert [ScrapeDone][1..] == [] && Reaches(a, b, [ScrapeDone]);
    assert [Release(scraper), ScrapeDone][1..] == [ScrapeDone];
  }

  /** A scrape under way can end: its scraper goes back to the pool, its request is done. */
  lemma ScrapeCanEnd(s: State, scraper: nat)
    requires Inv(s) && scraper in s.scraping && !s.closer.Crashed?
    ensures Reaches(s, AfterScrape(s, scraper), [Release(scraper), ScrapeDone])
  {
    ReleaseNeverBlocks(s, scraper);
    ReleaseThenDone(s, scraper);
  }

  /** A target is offered: queued, handed over, or skipped for a full queue. */
  predicate Offers(step: Step) {
    step.Send? || step.Handover? || step.Backlog?
  }

  function Offered(steps: seq<Step>): nat {
    if steps == [] then 0
    else Offered(steps[..|steps| - 1]) + if Offers(steps[|steps| - 1]) then 1 else 0
  }

  function Skipped(steps: seq<Step>): nat {
    if steps == [] then 0
    else Skipped(steps[..|steps| - 1]) + if steps[|steps| - 1].Backlog? then 1 else 0
  }

  /** Within a round one offer uses up one target; a request is accepted for it exactly if
      it is not skipped, and only a full queue lets it be skipped. */
  lemma GatherStep(s: State, step: Step)
    requires Enabled(s, step) && s.producer.Gathering? && !step.GatherEnd?
    ensures var t := Apply(s, step);
            && t.producer.Gathering? && t.producer.left == s.producer.left - (if Offers(step) then 1 else 0)
            && t.accepted == s.accepted + (if Offers(step) && !step.Backlog? then 1 else 0)
            && (step.Backlog? ==> |s.queue| >= s.capacity)
  {
  }

  /** A round over n targets that began with `before` accepted requests: targets left and
      targets offered add up, and every one offered was accepted or skipped. */
  ghost predicate InRound(s: State, n: nat, before: nat, offered: nat, skipped: nat) {
    s.producer.Gathering? && s.producer.left + offered == n && s.accepted + skipped == before + offered
  }

  lemma RoundStep(s: State, step: Step, n: nat, before: nat, offered: nat, skipped: nat)
    requires Enabled(s, step) && !step.GatherEnd? && InRound(s, n, before, offered, skipped)
    ensures InRound(Apply(s, step), n, before, offered + (if Offers(step) then 1 else 0),
                    skipped + (if step.Backlog? then 1 else 0))
  {
    GatherStep(s, step);
  }

  lemma {:induction false} RoundSoFar(states: seq<State>, steps: seq<Step>, i: nat, j: nat)
    requires Run(states, steps) && i < j <= |steps| && steps[i].Tick?
    requires forall k :: i < k < j ==> !steps[k].GatherEnd?
    ensures InRound(states[j], steps[i].targets, states[i].accepted, Offered(steps[i + 1..j]), Skipped(steps[i + 1..j]))
    decreases j
  {
    if j == i + 1 {
      RoundBegins(states, steps, i);
    } else {
      RoundSoFar(states, steps, i, j - 1);
      RoundGoesOn(states, steps, i, j);
    }
  }

  lemma RoundBegins(states: seq<State>, steps: seq<Step>, i: nat)
    requires Run(states, steps) && i < |steps| && steps[i].Tick?
    ensures InRound(states[i + 1], steps[i].targets, states[i].accepted, Offered(steps[i + 1..i + 1]),
                    Skipped(steps[i + 1..i + 1]))
  {
    RunStep(states, steps, i);
    TickStarts(states[i], steps[i]);
    assert steps[i + 1..i + 1] == [];
  }

  lemma RoundGoesOn(states: seq<State>, steps: seq<Step>, i: nat, j: nat)
    requires Run(states, steps) && i + 1 < j <= |steps| && steps[i].Tick? && !steps[j - 1].GatherEnd?
    requires InRound(states[j - 1], steps[i].targets, states[i].accepted, Offered(steps[i + 1..j - 1]),
                     Skipped(steps[i + 1..j - 1]))
    ensures InRound(states[j], steps[i].targets, states[i].accepted, Offered(steps[i + 1..j]), Skipped(steps[i + 1..j]))
  {
    RunStep(states, steps, j - 1);
    CountStep(steps, i + 1, j);
    RoundStep(states[j - 1], steps[j - 1], steps[i].targets, states[i].accepted, Offered(steps[i + 1..j - 1]),
              Skipped(steps[i + 1..j - 1]));
  }

  lemma TickStarts(s: State, step: Step)
    requires Enabled(s, step) && step.Tick?
    ensures InRound(Apply(s, step), step.targets, s.accepted, 0, 0)
  {
  }

  lemma CountStep(steps: seq<Step>, i: nat, j: nat)
    requires i < j <= |steps|
    ensures Offered(steps[i..j]) == Offered(steps[i..j - 1]) + (if Offers(steps[j - 1]) then 1 else 0)
    ensures Skipped(steps[i..j]) == Skipped(steps[i..j - 1]) + (if steps[j - 1].Backlog? then 1 else 0)
  {
    var round := steps[i..j];
    assert round[..|round| - 1] == steps[i..j - 1] && round[|round| - 1] == steps[j - 1];
  }

  /** Every finished round over n targets offered exactly n, and accepted all it did not
      skip. */
  lemma RoundOffersAll(states: seq<State>, steps: seq<Step>, i: nat, j: nat)
    requires Run(states, steps) && i < j < |steps| && steps[i].Tick? && steps[j].GatherEnd?
    requires forall k :: i < k < j ==> !steps[k].GatherEnd?
    ensures Offered(steps[i + 1..j]) == steps[i].targets
    ensures states[j].accepted + Skipped(steps[i + 1..j]) == states[i].accepted + steps[i].targets
  {
    RoundSoFar(states, steps, i, j);
    RunStep(states, steps, j);
    RoundEnds(states[j], steps[j]);
  }

  lemma RoundEnds(s: State, step: Step)
    requires Enabled(s, step) && step.GatherEnd?
    ensures s.producer == Gathering(0)
  {
  }

  /** Only a full queue lets a target be skipped. */
  lemma SkippedOnlyWhenFull(states: seq<State>, steps: seq<Step>, i: nat)
    requires Run(states, steps) && i < |steps| && steps[i].Backlog?
    ensures |states[i].queue| == states[i].capacity && states[i + 1].queue == states[i].queue
  {
    EveryRunKeepsInv(states, steps, i);
    RunStep(states, steps, i);
  }
}
