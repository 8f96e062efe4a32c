/** The sequential reference executor: it runs a plan's tasks in key order, folds their partial results,
reports each task's phases and releases every file handle on every way out. */
module Runner {
  import opened Wrappers
  import opened Sorting
  import opened Partitions
  import opened Resources

  datatype Task = Task(key: int, partition: Partition)

  /** What processing a partition does: it ends with a partial result or raises, or asks for the handle of a
      uri and goes on from there.  The opener raises if it `raises` and is called, that is, if the uri has no
      handle at hand; what the process does then is its own affair. */
  datatype Program<R> =
    | Return(result: Result<R, string>)
    | Ask(uri: string, raises: bool, granted: Program<R>, refused: Program<R>)

  /** Everything a plan supplies may raise. */
  datatype Plan<!R> =
    Plan(process: Partition -> Program<R>, combine: (R, R) -> Result<R, string>, empty: Result<R, string>, tasks: seq<Task>)

  datatype ExecResult<R> = ExecResult(value: R, nPartitions: nat, nCombines: nat)

  datatype Phase = Submitted | Started | Finished | Errored

  /** What a monitor sees; the error text of a failed task, and nothing that flows back. */
  datatype Event = Event(phase: Phase, task: Task, error: Option<string>)

  /** The bound on simultaneously open handles. */
  const MAX_OPEN := 128

  predicate TaskLe(a: Task, b: Task) {
    a.key <= b.key
  }

  function InKeyOrder(tasks: seq<Task>): seq<Task> {
    Sort(TaskLe, tasks)
  }

  function TaskKey(t: Task): int {
    t.key
  }

  /** The same tasks with ascending keys, tasks of one key as they were listed. */
  ghost predicate AscendingKeys(ts: seq<Task>, tasks: seq<Task>) {
    && multiset(ts) == multiset(tasks)
    && (forall i, j :: 0 <= i < j < |ts| ==> ts[i].key <= ts[j].key)
    && SameByKey(TaskKey, ts, tasks)
  }

  lemma KeyOrder()
    ensures OrdersKeys(TaskLe, TaskKey)
  {
  }

  /** This is the order in which a run submits, starts and folds. */
  lemma KeysAscend(tasks: seq<Task>)
    ensures AscendingKeys(InKeyOrder(tasks), tasks)
  {
    KeyOrder();
    SortSorts(TaskLe, tasks);
    var sorted := InKeyOrder(tasks);
    forall i, j | 0 <= i < j < |sorted|
      ensures sorted[i].key <= sorted[j].key
    {
      assert TaskLe(sorted[i], sorted[j]);
    }
    forall k
      ensures OfKey(TaskKey, k, sorted) == OfKey(TaskKey, k, tasks)
    {
      SortStable(TaskLe, TaskKey, k, tasks);
    }
  }

  /** And the only such order. */
  lemma KeyOrderUnique(tasks: seq<Task>, ts: seq<Task>)
    requires AscendingKeys(ts, tasks)
    ensures ts == InKeyOrder(tasks)
  {
    KeyOrder();
    KeysAscend(tasks);
    var sorted := InKeyOrder(tasks);
    assert forall k :: OfKey(TaskKey, k, ts) == OfKey(TaskKey, k, tasks) == OfKey(TaskKey, k, sorted);
    OrderedUnique(TaskLe, TaskKey, ts, sorted);
  }

  // ---- what a run yields ----

  /** Whether asking for a uri raises, after a trace of handle uses. */
  predicate OpenerRaises(trace: seq<Access>, uri: string, raises: bool) {
    raises && uri !in UrisOf(After(MAX_OPEN, trace).handles)
  }

  /** The handle uses after a process has run, and its outcome. */
  function Performed<R>(trace: seq<Access>, p: Program<R>): (r: (seq<Access>, Result<R, string>))
    decreases p
  {
    match p
    case Return(result) => (trace, result)
    case Ask(uri, raises, granted, refused) =>
      if OpenerRaises(trace, uri, raises) then Performed(trace, refused) else Performed(trace + [Open(uri)], granted)
  }

  /** How far a run has come: still folding, or stopped by a process or by a combination that raised. */
  datatype Status<R> = Folding(value: R) | ProcessRaised(error: string) | CombineRaised(error: string)

  datatype Standing<R> = Standing(trace: seq<Access>, done: nat, status: Status<R>)

  function Advance<R>(plan: Plan<R>, s: Standing<R>, t: Task): Standing<R> {
    if !s.status.Folding? then s else
      var (trace, partial) := Performed(s.trace, plan.process(t.partition));
      match partial
      case Err(e) => Standing(trace, s.done, ProcessRaised(e))
      case Ok(v) =>
        match plan.combine(s.status.value, v)
        case Err(e) => Standing(trace, s.done, CombineRaised(e))
        case Ok(value) => Standing(trace, s.done + 1, Folding(value))
  }

  /** Where a run over ordered tasks stands after the first `n` of them. */
  function StandingAt<R>(plan: Plan<R>, empty: R, ts: seq<Task>, n: nat): (s: Standing<R>)
    requires n <= |ts|
    ensures s.done <= n && (s.status.Folding? <==> s.done == n)
  {
    if n == 0 then Standing([], 0, Folding(empty)) else Advance(plan, StandingAt(plan, empty, ts, n - 1), ts[n - 1])
  }

  function Final<R>(plan: Plan<R>, empty: R, ts: seq<Task>): (s: Standing<R>)
    ensures s.done <= |ts| && (s.status.Folding? <==> s.done == |ts|)
  {
    StandingAt(plan, empty, ts, |ts|)
  }

  function ResultFrom<R>(s: Standing<R>): Result<ExecResult<R>, string> {
    match s.status
    case Folding(value) => Ok(ExecResult(value, s.done, if s.done > 0 then s.done - 1 else 0))
    case ProcessRaised(e) => Err(e)
    case CombineRaised(e) => Err(e)
  }

  function ResultOf<R>(plan: Plan<R>, ts: seq<Task>): Result<ExecResult<R>, string> {
    match plan.empty
    case Err(e) => Err(e)
    case Ok(empty) => ResultFrom(Final(plan, empty, ts))
  }

  function SubmittedEvents(ts: seq<Task>, n: nat): seq<Event>
    requires n <= |ts|
  {
    if n == 0 then [] else SubmittedEvents(ts, n - 1) + [Event(Submitted, ts[n - 1], None)]
  }

  function FinishedEvents(ts: seq<Task>, n: nat): seq<Event>
    requires n <= |ts|
  {
    if n == 0 then []
    else FinishedEvents(ts, n - 1) + [Event(Started, ts[n - 1], None), Event(Finished, ts[n - 1], None)]
  }

  /** What is reported of the task that stops a run: nothing after its start if it is the combination that raises. */
  function StopEvents<R>(s: Standing<R>, ts: seq<Task>): seq<Event>
    requires s.done < |ts| || s.status.Folding?
  {
    match s.status
    case Folding(_) => []
    case ProcessRaised(e) => [Event(Started, ts[s.done], None), Event(Errored, ts[s.done], Some(e))]
    case CombineRaised(_) => [Event(Started, ts[s.done], None)]
  }

  function LoopEvents<R>(s: Standing<R>, ts: seq<Task>): seq<Event>
    requires s.done <= |ts| && (s.done < |ts| || s.status.Folding?)
  {
    FinishedEvents(ts, s.done) + StopEvents(s, ts)
  }

  /** A plan without a start value reports nothing. */
  function EventsOf<R>(plan: Plan<R>, ts: seq<Task>): seq<Event> {
    match plan.empty
    case Err(_) => []
    case Ok(empty) => SubmittedEvents(ts, |ts|) + LoopEvents(Final(plan, empty, ts), ts)
  }

  /** The handle uses of a run, up to its last way out. */
  function TraceOf<R>(plan: Plan<R>, ts: seq<Task>): seq<Access> {
    match plan.empty
    case Err(_) => []
    case Ok(empty) => Final(plan, empty, ts).trace
  }

  /** Once stopped, a run stays where it is. */
  lemma {:induction false} StopsFor<R>(plan: Plan<R>, empty: R, ts: seq<Task>, n: nat, m: nat)
    requires n <= m <= |ts| && !StandingAt(plan, empty, ts, n).status.Folding?
    ensures StandingAt(plan, empty, ts, m) == StandingAt(plan, empty, ts, n)
  {
    if n < m {
      StopsFor(plan, empty, ts, n, m - 1);
    }
  }

  /** The first `n` tasks are finished and folded. */
  ghost predicate Ongoing<R>(plan: Plan<R>, empty: R, ts: seq<Task>, n: nat, value: R, trace: seq<Access>,
                             before: seq<Event>, now: seq<Event>) {
    n <= |ts| && StandingAt(plan, empty, ts, n) == Standing(trace, n, Folding(value)) && now == before + FinishedEvents(ts, n)
  }

  /** The task's process raises. */
  lemma ProcessStops<R>(plan: Plan<R>, empty: R, ts: seq<Task>, n: nat, value: R, trace: seq<Access>, before: seq<Event>,
                        now: seq<Event>, after: seq<Access>, e: string)
    requires n < |ts| && Ongoing(plan, empty, ts, n, value, trace, before, now)
    requires Performed(trace, plan.process(ts[n].partition)) == (after, Err(e))
    ensures Final(plan, empty, ts) == Standing(after, n, ProcessRaised(e))
    ensures now + [Event(Started, ts[n], None)] + [Event(Errored, ts[n], Some(e))]
      == before + LoopEvents(Final(plan, empty, ts), ts)
  {
    StopsFor(plan, empty, ts, n + 1, |ts|);
    EventsRegroup(before, FinishedEvents(ts, n), Event(Started, ts[n], None), Event(Errored, ts[n], Some(e)));
  }

  /** Taking in its partial result raises. */
  lemma CombineStops<R>(plan: Plan<R>, empty: R, ts: seq<Task>, n: nat, value: R, trace: seq<Access>, before: seq<Event>,
                        now: seq<Event>, after: seq<Access>, partial: R, e: string)
    requires n < |ts| && Ongoing(plan, empty, ts, n, value, trace, before, now)
    requires Performed(trace, plan.process(ts[n].partition)) == (after, Ok(partial)) && plan.combine(value, partial) == Err(e)
    ensures Final(plan, empty, ts) == Standing(after, n, CombineRaised(e))
    ensures now + [Event(Started, ts[n], None)] == before + LoopEvents(Final(plan, empty, ts), ts)
  {
    StopsFor(plan, empty, ts, n + 1, |ts|);
    assert before + FinishedEvents(ts, n) + [Event(Started, ts[n], None)]
      == before + (FinishedEvents(ts, n) + [Event(Started, ts[n], None)]);
  }

  lemma GoesOn<R>(plan: Plan<R>, empty: R, ts: seq<Task>, n: nat, value: R, trace: seq<Access>, before: seq<Event>,
                  now: seq<Event>, after: seq<Access>, partial: R, next: R)
    requires n < |ts| && Ongoing(plan, empty, ts, n, value, trace, before, now)
    requires Performed(trace, plan.process(ts[n].partition)) == (after, Ok(partial)) && plan.combine(value, partial) == Ok(next)
    ensures Ongoing(plan, empty, ts, n + 1, next, after, before, now + [Event(Started, ts[n], None)] + [Event(Finished, ts[n], None)])
  {
    EventsRegroup(before, FinishedEvents(ts, n), Event(Started, ts[n], None), Event(Finished, ts[n], None));
  }

  lemma Ends<R>(plan: Plan<R>, empty: R, ts: seq<Task>, n: nat, value: R, trace: seq<Access>, before: seq<Event>, now: seq<Event>)
    requires n >= |ts| && Ongoing(plan, empty, ts, n, value, trace, before, now)
    ensures Final(plan, empty, ts) == Standing(trace, n, Folding(value))
    ensures now == before + LoopEvents(Final(plan, empty, ts), ts)
  {
    assert FinishedEvents(ts, n) + [] == FinishedEvents(ts, n);
  }

  class SequentialRunner {
    var events: seq<Event>

    constructor ()
      ensures events == []
    {
      events := [];
    }

    /** Carry out one process over the handles at hand. */
    method Process<R>(p: Program<R>, resources: LocalResources, ghost before: seq<Access>)
      returns (r: Result<R, string>, ghost after: seq<Access>)
      requires resources.maxOpen == MAX_OPEN && resources.Counted() && resources.Snapshot() == After(MAX_OPEN, before)
      modifies resources
      ensures resources.Counted() && resources.Snapshot() == After(MAX_OPEN, after)
      ensures (after, r) == Performed(before, p)
    {
      var now := p;
      after := before;
      AfterAccounted(MAX_OPEN, before);
      while now.Ask?
        invariant resources.Valid() && resources.Snapshot() == After(MAX_OPEN, after)
        invariant Performed(after, now) == Performed(before, p)
        decreases now
      {
        AfterSnoc(MAX_OPEN, after, now.uri);
        var h := resources.OpenOnce(now.uri, now.raises);
        if h.Err? {
          now := now.refused;
        } else {
          after := after + [Open(now.uri)];
          now := now.granted;
        }
      }
      r := now.result;
    }

    method Submit(ts: seq<Task>)
      modifies this
      ensures events == old(events) + SubmittedEvents(ts, |ts|)
    {
      for n := 0 to |ts|
        invariant events == old(events) + SubmittedEvents(ts, n)
      {
        events := events + [Event(Submitted, ts[n], None)];
      }
    }

    /** The task loop, up to the first process or combination that raises. */
    method RunTasks<R>(plan: Plan<R>, empty: R, ts: seq<Task>, resources: LocalResources)
      returns (r: Result<ExecResult<R>, string>)
      requires resources.Counted() && resources.maxOpen == MAX_OPEN && resources.Snapshot() == NO_HANDLES
      modifies this, resources
      ensures resources.Counted() && resources.Snapshot() == After(MAX_OPEN, Final(plan, empty, ts).trace)
      ensures r == ResultFrom(Final(plan, empty, ts))
      ensures events == old(events) + LoopEvents(Final(plan, empty, ts), ts)
    {
      var value := empty;
      var n := 0;
      ghost var trace: seq<Access> := [];
      while n < |ts|
        invariant Ongoing(plan, empty, ts, n, value, trace, old(events), events)
        invariant resources.Counted() && resources.Snapshot() == After(MAX_OPEN, trace)
      {
        ghost var sofar := events;
        events := events + [Event(Started, ts[n], None)];
        var partial, after := Process(plan.process(ts[n].partition), resources, trace);
        if partial.Err? {
          events := events + [Event(Errored, ts[n], Some(partial.error))];
          ProcessStops(plan, empty, ts, n, value, trace, old(events), sofar, after, partial.error);
          return Err(partial.error);
        }
        var combined := plan.combine(value, partial.value);
        if combined.Err? {
          CombineStops(plan, empty, ts, n, value, trace, old(events), sofar, after, partial.value, combined.error);
          return Err(combined.error);
        }
        GoesOn(plan, empty, ts, n, value, trace, old(events), sofar, after, partial.value, combined.value);
        value, trace := combined.value, after;
        events := events + [Event(Finished, ts[n], None)];
        n := n + 1;
      }
      Ends(plan, empty, ts, n, value, trace, old(events), events);
      r := Ok(ExecResult(value, n, if n > 0 then n - 1 else 0));
    }

    /** The run's guarded part: the start value, the submissions and the task loop. */
    method RunOver<R>(plan: Plan<R>, ts: seq<Task>, resources: LocalResources) returns (r: Result<ExecResult<R>, string>)
      requires resources.Counted() && resources.maxOpen == MAX_OPEN && resources.Snapshot() == NO_HANDLES
      modifies this, resources
      ensures resources.Counted() && resources.Snapshot() == After(MAX_OPEN, TraceOf(plan, ts))
      ensures r == ResultOf(plan, ts) && events == old(events) + EventsOf(plan, ts)
    {
      if plan.empty.Err? {
        return Err(plan.empty.error);
      }
      var empty := plan.empty.value;
      Reassociate(events, SubmittedEvents(ts, |ts|), LoopEvents(Final(plan, empty, ts), ts));
      Submit(ts);
      r := RunTasks(plan, empty, ts, resources);
    }

    /** Run a plan.  Handles are released on every way out. */
    method Run<R>(plan: Plan<R>) returns (r: Result<ExecResult<R>, string>, ghost resources: LocalResources)
      modifies this
      ensures AscendingKeys(InKeyOrder(plan.tasks), plan.tasks)
      ensures r == ResultOf(plan, InKeyOrder(plan.tasks))
      ensures r.Ok? ==> r.value.nPartitions == |plan.tasks| && r.value.nCombines == Larger(0, |plan.tasks| - 1)
      ensures events == old(events) + EventsOf(plan, InKeyOrder(plan.tasks))
      ensures fresh(resources) && resources.handles == []
      ensures resources.Snapshot() == After(MAX_OPEN, TraceOf(plan, InKeyOrder(plan.tasks)) + [Close])
    {
      var local := new LocalResources(MAX_OPEN);
      var ordered := InKeyOrder(plan.tasks);
      KeysAscend(plan.tasks);
      RunCounts(plan);
      r := RunOver(plan, ordered, local);
      ClosedTrace(TraceOf(plan, ordered));
      AfterAccounted(MAX_OPEN, TraceOf(plan, ordered));
      local.Close();
      resources := local;
    }
  }

  function Larger(a: int, b: int): int {
    if a >= b then a else b
  }

  /** A result counts every task, and one combination less. */
  lemma RunCounts<R>(plan: Plan<R>)
    ensures var r := ResultOf(plan, InKeyOrder(plan.tasks));
      r.Ok? ==> r.value.nPartitions == |plan.tasks| && r.value.nCombines == Larger(0, |plan.tasks| - 1)
  {
    KeysAscend(plan.tasks);
    assert |multiset(InKeyOrder(plan.tasks))| == |multiset(plan.tasks)|;
  }

  lemma EventsRegroup(a: seq<Event>, b: seq<Event>, e: Event, f: Event)
    ensures a + b + [e] + [f] == a + (b + [e, f])
  {
  }

  lemma ClosedTrace(trace: seq<Access>)
    ensures After(MAX_OPEN, trace + [Close]) == CloseAll(After(MAX_OPEN, trace))
  {
    assert (trace + [Close])[..|trace|] == trace;
  }

  // ---- the run is a canonical fold ----

  /** The same value, or both raise. */
  ghost predicate Alike<R>(a: Result<R, string>, b: Result<R, string>) {
    a.Ok? == b.Ok? && (a.Ok? ==> a.value == b.value)
  }

  /** Combine two results; what raised first is raised. */
  function Combined<R>(combine: (R, R) -> Result<R, string>, a: Result<R, string>, b: Result<R, string>): Result<R, string> {
    if a.Err? then a else if b.Err? then b else combine(a.value, b.value)
  }

  /** Bracketing to the left and to the right have one value, or both raise. */
  ghost predicate Associative<R(!new)>(combine: (R, R) -> Result<R, string>) {
    forall x, y, z ::
      Alike(Combined(combine, combine(x, y), Ok(z)), Combined(combine, Ok(x), combine(y, z)))
  }

  ghost predicate Identity<R(!new)>(combine: (R, R) -> Result<R, string>, empty: R) {
    forall x :: combine(empty, x) == Ok(x) && combine(x, empty) == Ok(x)
  }

  function Fold<R>(combine: (R, R) -> Result<R, string>, empty: R, ps: seq<R>): Result<R, string> {
    if ps == [] then Ok(empty) else Combined(combine, Fold(combine, empty, ps[..|ps| - 1]), Ok(ps[|ps| - 1]))
  }

  /** A way to bracket a list of partial results. */
  datatype Bracketing<R> = Nothing | One(value: R) | Two(left: Bracketing<R>, right: Bracketing<R>)

  function Leaves<R>(t: Bracketing<R>): seq<R> {
    match t
    case Nothing => []
    case One(v) => [v]
    case Two(l, r) => Leaves(l) + Leaves(r)
  }

  function Reduced<R>(combine: (R, R) -> Result<R, string>, empty: R, t: Bracketing<R>): Result<R, string> {
    match t
    case Nothing => Ok(empty)
    case One(v) => Ok(v)
    case Two(l, r) => Combined(combine, Reduced(combine, empty, l), Reduced(combine, empty, r))
  }

  lemma CombinedAlike<R(!new)>(combine: (R, R) -> Result<R, string>, a: Result<R, string>, b: Result<R, string>,
                               c: Result<R, string>, d: Result<R, string>)
    requires Alike(a, b) && Alike(c, d)
    ensures Alike(Combined(combine, a, c), Combined(combine, b, d))
  {
  }

  lemma CombinedAssociative<R(!new)>(combine: (R, R) -> Result<R, string>, a: Result<R, string>, b: Result<R, string>, z: R)
    requires Associative(combine)
    ensures Alike(Combined(combine, Combined(combine, a, b), Ok(z)), Combined(combine, a, Combined(combine, b, Ok(z))))
  {
    if a.Ok? && b.Ok? {
      assert Alike(Combined(combine, combine(a.value, b.value), Ok(z)), Combined(combine, Ok(a.value), combine(b.value, z)));
    }
  }

  lemma {:induction false} FoldConcat<R(!new)>(combine: (R, R) -> Result<R, string>, empty: R, ps: seq<R>, qs: seq<R>)
    requires Associative(combine) && Identity(combine, empty)
    ensures Alike(Fold(combine, empty, ps + qs), Combined(combine, Fold(combine, empty, ps), Fold(combine, empty, qs)))
    decreases |qs|
  {
    if qs == [] {
      assert ps + qs == ps;
    } else {
      var init, last := qs[..|qs| - 1], qs[|qs| - 1];
      assert (ps + qs)[..|ps + qs| - 1] == ps + init;
      FoldConcat(combine, empty, ps, init);
      var p, q := Fold(combine, empty, ps), Fold(combine, empty, init);
      CombinedAlike(combine, Fold(combine, empty, ps + init), Combined(combine, p, q), Ok(last), Ok(last));
      CombinedAssociative(combine, p, q, last);
    }
  }

  /** Whatever the shape of the reduction tree, its value is the sequential one, or both raise. */
  lemma {:induction false} AnyBracketing<R(!new)>(combine: (R, R) -> Result<R, string>, empty: R, t: Bracketing<R>)
    requires Associative(combine) && Identity(combine, empty)
    ensures Alike(Reduced(combine, empty, t), Fold(combine, empty, Leaves(t)))
  {
    match t
    case Nothing =>
    case One(v) =>
      assert [v][..0] == [];
    case Two(l, r) =>
      AnyBracketing(combine, empty, l);
      AnyBracketing(combine, empty, r);
      CombinedAlike(combine, Reduced(combine, empty, l), Fold(combine, empty, Leaves(l)),
                    Reduced(combine, empty, r), Fold(combine, empty, Leaves(r)));
      FoldConcat(combine, empty, Leaves(l), Leaves(r));
  }

  /** The handle uses after the processes of the first `n` tasks. */
  function UsesOf<R>(plan: Plan<R>, ts: seq<Task>, n: nat): seq<Access>
    requires n <= |ts|
  {
    if n == 0 then [] else Performed(UsesOf(plan, ts, n - 1), plan.process(ts[n - 1].partition)).0
  }

  /** What the process of the `i`-th task ends with, over the handles the earlier ones left. */
  function OutcomeOf<R>(plan: Plan<R>, ts: seq<Task>, i: nat): Result<R, string>
    requires i < |ts|
  {
    Performed(UsesOf(plan, ts, i), plan.process(ts[i].partition)).1
  }

  /** The partial results of the first `n` tasks. */
  ghost predicate ArePartials<R>(plan: Plan<R>, ts: seq<Task>, n: nat, ps: seq<R>) {
    n <= |ts| && |ps| == n && forall i :: 0 <= i < n ==> OutcomeOf(plan, ts, i) == Ok(ps[i])
  }

  /** The run folds the partial results. */
  lemma {:induction false} StandingFolds<R>(plan: Plan<R>, empty: R, ts: seq<Task>, n: nat, ps: seq<R>)
    requires ArePartials(plan, ts, n, ps)
    ensures match Fold(plan.combine, empty, ps)
            case Ok(v) => StandingAt(plan, empty, ts, n) == Standing(UsesOf(plan, ts, n), n, Folding(v))
            case Err(e) => StandingAt(plan, empty, ts, n).status == CombineRaised(e)
    decreases n
  {
    if n > 0 {
      assert ps[..n - 1][..n - 1] == ps[..n - 1];
      StandingFolds(plan, empty, ts, n - 1, ps[..n - 1]);
      assert OutcomeOf(plan, ts, n - 1) == Ok(ps[n - 1]);
    }
  }

  /** As long as no process raises, a run has the value of every bracketing of the partial results in key
      order, and it is stopped by a combination exactly when every bracketing raises. */
  lemma RunIsAnyBracketing<R(!new)>(plan: Plan<R>, empty: R, n: nat, ps: seq<R>, t: Bracketing<R>)
    requires plan.empty == Ok(empty) && Associative(plan.combine) && Identity(plan.combine, empty)
    requires ArePartials(plan, InKeyOrder(plan.tasks), n, ps) && Leaves(t) == ps
    ensures AscendingKeys(InKeyOrder(plan.tasks), plan.tasks)
    ensures var s := StandingAt(plan, empty, InKeyOrder(plan.tasks), n);
      match Reduced(plan.combine, empty, t)
      case Ok(v) => s.status == Folding(v) && s.done == n
      case Err(_) => s.status.CombineRaised?
  {
    KeysAscend(plan.tasks);
    AnyBracketing(plan.combine, empty, t);
    StandingFolds(plan, empty, InKeyOrder(plan.tasks), n, ps);
  }

  /** And a run that got through its first tasks has such partial results. */
  lemma {:induction false} FinishedHasPartials<R>(plan: Plan<R>, empty: R, ts: seq<Task>, n: nat) returns (ps: seq<R>)
    requires n <= |ts| && StandingAt(plan, empty, ts, n).status.Folding?
    ensures ArePartials(plan, ts, n, ps)
    ensures StandingAt(plan, empty, ts, n).trace == UsesOf(plan, ts, n)
    ensures Fold(plan.combine, empty, ps) == Ok(StandingAt(plan, empty, ts, n).status.value)
  {
    if n == 0 {
      ps := [];
    } else {
      var init := FinishedHasPartials(plan, empty, ts, n - 1);
      ps := init + [OutcomeOf(plan, ts, n - 1).value];
      StandingFolds(plan, empty, ts, n, ps);
    }
  }

  // ---- when a combination raises ----

  /** Some task's partial result cannot be combined with the fold of those before it. */
  ghost predicate CombineRaises<R(!new)>(plan: Plan<R>, empty: R, ts: seq<Task>) {
    exists n, ps :: CombineRaisesAt(plan, empty, ts, n, ps)
  }

  ghost predicate CombineRaisesAt<R>(plan: Plan<R>, empty: R, ts: seq<Task>, n: nat, ps: seq<R>) {
    && n < |ts| && ArePartials(plan, ts, n + 1, ps)
    && Fold(plan.combine, empty, ps[..n]).Ok? && plan.combine(Fold(plan.combine, empty, ps[..n]).value, ps[n]).Err?
  }

  /** Then that is where the run stops. */
  lemma CombineRaisesStops<R>(plan: Plan<R>, empty: R, ts: seq<Task>, n: nat, ps: seq<R>)
    requires CombineRaisesAt(plan, empty, ts, n, ps)
    ensures Final(plan, empty, ts).done == n && Final(plan, empty, ts).status.CombineRaised?
  {
    StandingFolds(plan, empty, ts, n, ps[..n]);
    StandingFolds(plan, empty, ts, n + 1, ps);
    StopsFor(plan, empty, ts, n + 1, |ts|);
  }

  lemma {:induction false} CombineStopFound<R>(plan: Plan<R>, empty: R, ts: seq<Task>, m: nat) returns (n: nat, ps: seq<R>)
    requires m <= |ts| && StandingAt(plan, empty, ts, m).status.CombineRaised?
    ensures CombineRaisesAt(plan, empty, ts, n, ps)
  {
    if StandingAt(plan, empty, ts, m - 1).status.Folding? {
      n := m - 1;
      var init := FinishedHasPartials(plan, empty, ts, n);
      ps := init + [OutcomeOf(plan, ts, n).value];
      assert ps[..n] == init;
    } else {
      n, ps := CombineStopFound(plan, empty, ts, m - 1);
    }
  }

  lemma CombineRaisesIff<R(!new)>(plan: Plan<R>, empty: R, ts: seq<Task>)
    ensures CombineRaises(plan, empty, ts) <==> Final(plan, empty, ts).status.CombineRaised?
  {
    if CombineRaises(plan, empty, ts) {
      var n, ps :| CombineRaisesAt(plan, empty, ts, n, ps);
      CombineRaisesStops(plan, empty, ts, n, ps);
    }
    if Final(plan, empty, ts).status.CombineRaised? {
      var n, ps := CombineStopFound(plan, empty, ts, |ts|);
    }
  }

  // ---- tasks with distinct keys ----

  ghost predicate DistinctTaskKeys(tasks: seq<Task>) {
    forall i, j :: 0 <= i < j < |tasks| ==> tasks[i].key != tasks[j].key
  }

  lemma RestDistinct(tasks: seq<Task>, k: nat)
    requires DistinctTaskKeys(tasks) && k < |tasks|
    ensures var rest := Without(tasks, k);
      && multiset(rest) == multiset(tasks) - multiset{tasks[k]} && DistinctTaskKeys(rest)
      && forall t :: t in multiset(rest) ==> t.key != tasks[k].key
  {
    var rest := Without(tasks, k);
    assert tasks == tasks[..k] + [tasks[k]] + tasks[k + 1..];
    assert forall j :: 0 <= j < |rest| ==> rest[j] == tasks[if j < k then j else j + 1];
    forall t | t in multiset(rest)
      ensures t.key != tasks[k].key
    {
      assert t in rest;
    }
  }

  lemma DistinctSnoc(init: seq<Task>, last: Task)
    requires DistinctTaskKeys(init) && forall t :: t in multiset(init) ==> t.key != last.key
    ensures DistinctTaskKeys(init + [last])
  {
    assert forall i :: 0 <= i < |init| ==> init[i] in multiset(init);
  }

  lemma {:induction false} DistinctByMultiset(tasks: seq<Task>, others: seq<Task>)
    requires multiset(tasks) == multiset(others) && DistinctTaskKeys(tasks)
    ensures DistinctTaskKeys(others)
    decreases |others|
  {
    if others != [] {
      var init, last := others[..|others| - 1], others[|others| - 1];
      assert others == init + [last];
      assert last in multiset(tasks);
      var k :| 0 <= k < |tasks| && tasks[k] == last;
      RestDistinct(tasks, k);
      assert multiset(init) == multiset(others) - multiset{last};
      DistinctByMultiset(Without(tasks, k), init);
      DistinctSnoc(init, last);
    }
  }

  lemma StrictByKey(ts: seq<Task>)
    requires Ordered(TaskLe, ts) && DistinctTaskKeys(ts)
    ensures StrictlyOrdered(TaskLe, ts)
  {
    forall i, j | 0 <= i < j < |ts|
      ensures !TaskLe(ts[j], ts[i])
    {
      assert TaskLe(ts[i], ts[j]);
    }
  }

  /** With distinct keys the order in which a plan lists its tasks does not matter: the run orders them the
      same way, so result, events and handle uses are the same. */
  lemma TaskOrderIrrelevant(tasks: seq<Task>, others: seq<Task>)
    requires multiset(tasks) == multiset(others) && DistinctTaskKeys(tasks)
    ensures InKeyOrder(tasks) == InKeyOrder(others)
  {
    KeyOrder();
    SortSorts(TaskLe, tasks);
    SortSorts(TaskLe, others);
    var xs, ys := InKeyOrder(tasks), InKeyOrder(others);
    DistinctByMultiset(tasks, xs);
    DistinctByMultiset(tasks, ys);
    StrictByKey(xs);
    StrictByKey(ys);
    StrictUnique(TaskLe, xs, ys);
  }

  // ---- the event protocol ----

  /** The phases reported for one task key, in order. */
  function PhasesOf(events: seq<Event>, key: int): seq<Phase> {
    if events == [] then []
    else
      var last := events[|events| - 1];
      PhasesOf(events[..|events| - 1], key) + if last.task.key == key then [last.phase] else []
  }

  lemma {:induction false} PhasesConcat(a: seq<Event>, b: seq<Event>, key: int)
    ensures PhasesOf(a + b, key) == PhasesOf(a, key) + PhasesOf(b, key)
    decreases |b|
  {
    if b == [] {
      assert a + b == a;
    } else {
      assert (a + b)[..|a + b| - 1] == a + b[..|b| - 1];
      PhasesConcat(a, b[..|b| - 1], key);
    }
  }

  lemma {:induction false} SubmittedPhases(ts: seq<Task>, n: nat, i: nat)
    requires n <= |ts| && i < |ts| && DistinctTaskKeys(ts)
    ensures PhasesOf(SubmittedEvents(ts, n), ts[i].key) == if i < n then [Submitted] else []
  {
    if n > 0 {
      SubmittedPhases(ts, n - 1, i);
      PhasesConcat(SubmittedEvents(ts, n - 1), [Event(Submitted, ts[n - 1], None)], ts[i].key);
      OnePhase(Event(Submitted, ts[n - 1], None), ts[i].key);
      SameKeySameTask(ts, i, n - 1);
    }
  }

  lemma SameKeySameTask(ts: seq<Task>, i: nat, j: nat)
    requires i < |ts| && j < |ts| && DistinctTaskKeys(ts)
    ensures ts[i].key == ts[j].key <==> i == j
  {
    assert i < j || j < i || i == j;
  }

  lemma OnePhase(e: Event, key: int)
    ensures PhasesOf([e], key) == if e.task.key == key then [e.phase] else []
  {
    assert [e][..0] == [];
  }

  lemma TwoPhases(e: Event, f: Event, key: int)
    requires e.task == f.task
    ensures PhasesOf([e, f], key) == if e.task.key == key then [e.phase, f.phase] else []
  {
    assert [e, f][..1] == [e];
    OnePhase(e, key);
  }

  lemma MorePhases(before: seq<Event>, e: Event, f: Event, key: int)
    requires e.task == f.task
    ensures PhasesOf(before + [e, f], key) == PhasesOf(before, key) + if e.task.key == key then [e.phase, f.phase] else []
  {
    PhasesConcat(before, [e, f], key);
    TwoPhases(e, f, key);
  }

  lemma {:induction false} FinishedPhases(ts: seq<Task>, n: nat, i: nat)
    requires n <= |ts| && i < |ts| && DistinctTaskKeys(ts)
    ensures PhasesOf(FinishedEvents(ts, n), ts[i].key) == if i < n then [Started, Finished] else []
  {
    if n > 0 {
      FinishedPhases(ts, n - 1, i);
      var e, f := Event(Started, ts[n - 1], None), Event(Finished, ts[n - 1], None);
      MorePhases(FinishedEvents(ts, n - 1), e, f, ts[i].key);
      SameKeySameTask(ts, i, n - 1);
    }
  }

  /** What the run's way out reports of a task. */
  function StopPhases<R>(status: Status<R>): seq<Phase> {
    match status
    case Folding(_) => []
    case ProcessRaised(_) => [Started, Errored]
    case CombineRaised(_) => [Started]
  }

  lemma StoppedPhases<R>(s: Standing<R>, ts: seq<Task>, i: nat)
    requires (s.done < |ts| || s.status.Folding?) && i < |ts| && DistinctTaskKeys(ts)
    ensures PhasesOf(StopEvents(s, ts), ts[i].key) == if i == s.done then StopPhases(s.status) else []
  {
    if s.done < |ts| {
      SameKeySameTask(ts, i, s.done);
      match s.status
      case Folding(_) =>
      case ProcessRaised(e) =>
        TwoPhases(Event(Started, ts[s.done], None), Event(Errored, ts[s.done], Some(e)), ts[i].key);
      case CombineRaised(_) =>
        OnePhase(Event(Started, ts[s.done], None), ts[i].key);
    }
  }

  /** The phases reported of the `i`-th task. */
  function PhasesAt<R>(s: Standing<R>, i: nat): seq<Phase> {
    if i < s.done then [Submitted, Started, Finished] else if i == s.done then [Submitted] + StopPhases(s.status) else [Submitted]
  }

  /** What one task reports in a run over distinct ordered keys. */
  lemma OrderedPhases<R>(plan: Plan<R>, empty: R, ts: seq<Task>, i: nat)
    requires DistinctTaskKeys(ts) && i < |ts|
    ensures var s := Final(plan, empty, ts);
      PhasesOf(SubmittedEvents(ts, |ts|) + LoopEvents(s, ts), ts[i].key) == PhasesAt(s, i)
  {
    var s, key := Final(plan, empty, ts), ts[i].key;
    PhasesConcat(SubmittedEvents(ts, |ts|), LoopEvents(s, ts), key);
    PhasesConcat(FinishedEvents(ts, s.done), StopEvents(s, ts), key);
    SubmittedPhases(ts, |ts|, i);
    FinishedPhases(ts, s.done, i);
    StoppedPhases(s, ts, i);
    AllPhases(s, i);
  }

  lemma AllPhases<R>(s: Standing<R>, i: nat)
    ensures [Submitted] + ((if i < s.done then [Started, Finished] else []) + (if i == s.done then StopPhases(s.status) else []))
      == PhasesAt(s, i)
  {
  }

  lemma OrderedDistinct(tasks: seq<Task>)
    requires DistinctTaskKeys(tasks)
    ensures DistinctTaskKeys(InKeyOrder(tasks)) && |InKeyOrder(tasks)| == |tasks|
  {
    KeyOrder();
    SortSorts(TaskLe, tasks);
    DistinctByMultiset(tasks, InKeyOrder(tasks));
    assert |multiset(InKeyOrder(tasks))| == |multiset(tasks)|;
  }

  /** Without a start value nothing is reported.  Otherwise every task is submitted once; the finished ones
      are started and finished; one whose process raises is started and errored; one whose combination raises is
      started and nothing more; and nothing is started after either. */
  lemma TaskPhases<R>(plan: Plan<R>, i: nat)
    requires DistinctTaskKeys(plan.tasks) && i < |plan.tasks|
    ensures |InKeyOrder(plan.tasks)| == |plan.tasks| && AscendingKeys(InKeyOrder(plan.tasks), plan.tasks)
    ensures var ts := InKeyOrder(plan.tasks);
      PhasesOf(EventsOf(plan, ts), ts[i].key)
        == match plan.empty case Err(_) => [] case Ok(empty) => PhasesAt(Final(plan, empty, ts), i)
  {
    OrderedDistinct(plan.tasks);
    KeysAscend(plan.tasks);
    if plan.empty.Ok? {
      OrderedPhases(plan, plan.empty.value, InKeyOrder(plan.tasks), i);
    }
  }

  ghost predicate TerminalIfStarted(phases: seq<Phase>) {
    Started in phases ==> Finished in phases || Errored in phases
  }

  lemma TerminalAt<R>(s: Standing<R>, i: nat)
    ensures TerminalIfStarted(PhasesAt(s, i)) <==> !(i == s.done && s.status.CombineRaised?)
  {
    assert PhasesAt(s, i)[0] == Submitted;
    if i < s.done {
      assert PhasesAt(s, i)[2] == Finished;
    } else if i == s.done && !s.status.Folding? {
      assert PhasesAt(s, i)[1] == Started;
      if s.status.ProcessRaised? {
        assert PhasesAt(s, i)[2] == Errored;
      }
    }
  }

  /** Every started task is reported as finished or errored if and only if there is no task whose partial
      result cannot be combined with the fold of those before it. */
  lemma AllTerminalIff<R(!new)>(plan: Plan<R>)
    requires DistinctTaskKeys(plan.tasks)
    ensures |InKeyOrder(plan.tasks)| == |plan.tasks|
    ensures var ts := InKeyOrder(plan.tasks);
      (forall i :: 0 <= i < |ts| ==> TerminalIfStarted(PhasesOf(EventsOf(plan, ts), ts[i].key)))
      <==> !(plan.empty.Ok? && CombineRaises(plan, plan.empty.value, ts))
  {
    var ts := InKeyOrder(plan.tasks);
    OrderedDistinct(plan.tasks);
    forall i | 0 <= i < |ts|
      ensures TerminalIfStarted(PhasesOf(EventsOf(plan, ts), ts[i].key))
        <==> (plan.empty.Ok? ==> !(i == Final(plan, plan.empty.value, ts).done && Final(plan, plan.empty.value, ts).status.CombineRaised?))
    {
      TaskPhases(plan, i);
      if plan.empty.Ok? {
        TerminalAt(Final(plan, plan.empty.value, ts), i);
      }
    }
    if plan.empty.Ok? {
      CombineRaisesIff(plan, plan.empty.value, ts);
    }
  }

  /** Combining anything into a positive value raises. */
  function AddOnce(x: int, y: int): Result<int, string> {
    if x > 0 then Err("full") else Ok(x + y)
  }

  /** Two tasks over one partition, under a combination that takes one result only. */
  function TwoTasks(p: Partition): Plan<int> {
    Plan((q: Partition) => Return(Ok(1)), AddOnce, Ok(0), [Task(0, p), Task(1, p)])
  }

  lemma TwoTasksOrdered(p: Partition)
    ensures InKeyOrder(TwoTasks(p).tasks) == TwoTasks(p).tasks && DistinctTaskKeys(TwoTasks(p).tasks)
  {
    KeyOrder();
    SortOrdered(TaskLe, TwoTasks(p).tasks);
  }

  /** The second combination of this plan raises, and its task is reported as submitted and started. */
  lemma SecondCombineRaises(p: Partition)
    ensures var plan := TwoTasks(p); var ts := InKeyOrder(plan.tasks);
      && |ts| == 2 && CombineRaises(plan, 0, ts)
      && PhasesOf(EventsOf(plan, ts), ts[0].key) == [Submitted, Started, Finished]
      && PhasesOf(EventsOf(plan, ts), ts[1].key) == [Submitted, Started]
  {
    var plan := TwoTasks(p);
    var ts := plan.tasks;
    TwoTasksOrdered(p);
    assert OutcomeOf(plan, ts, 0) == Ok(1) && OutcomeOf(plan, ts, 1) == Ok(1);
    assert [1, 1][..1] == [1] && [1][..0] == [];
    assert Fold(AddOnce, 0, [1]) == AddOnce(0, 1);
    assert CombineRaisesAt(plan, 0, ts, 1, [1, 1]);
    CombineRaisesStops(plan, 0, ts, 1, [1, 1]);
    TaskPhases(plan, 0);
    TaskPhases(plan, 1);
  }

  /** After a run, whatever raised, every handle it opened has been closed exactly once. */
  lemma HandlesReleased<R>(plan: Plan<R>, h: Handle)
    requires h < |After(MAX_OPEN, TraceOf(plan, InKeyOrder(plan.tasks)) + [Close]).opens|
    ensures multiset(After(MAX_OPEN, TraceOf(plan, InKeyOrder(plan.tasks)) + [Close]).closed)[h] == 1
  {
    var trace := TraceOf(plan, InKeyOrder(plan.tasks));
    ClosedTrace(trace);
    AfterAccounted(MAX_OPEN, trace + [Close]);
    AccountedOnce(After(MAX_OPEN, trace + [Close]), h);
  }

  /** At no time during a run are more than 128 handles open. */
  lemma FewOpen<R>(plan: Plan<R>, n: nat)
    requires n <= |TraceOf(plan, InKeyOrder(plan.tasks))|
    ensures var c := After(MAX_OPEN, TraceOf(plan, InKeyOrder(plan.tasks))[..n]);
      && |c.handles| <= 128
      && forall h :: 0 <= h < |c.opens| && h !in c.closed ==> h in HandlesOf(c.handles)
  {
    var trace := TraceOf(plan, InKeyOrder(plan.tasks))[..n];
    var c := After(MAX_OPEN, trace);
    CachedAreRecent(MAX_OPEN, trace);
    assert |UrisOf(c.handles)| == |c.handles|;
    forall h: Handle | 0 <= h < |c.opens| && h !in c.closed
      ensures h in HandlesOf(c.handles)
    {
      OpenIffCached(MAX_OPEN, trace, h);
    }
  }
}
