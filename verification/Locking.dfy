/** The mutex around the store, step by step.

A request takes the lock, validates its inputs and looks its key up, appends the node, inserts the table
entry, and releases the lock with an id.  Any interleaving of these steps of any threads is, release by
release, a run of atomic requests. */
module Locking {
  import opened Wrappers
  import opened Node
  import opened Arena
  import opened Interning
  import opened Concurrency

  /** Where a thread is inside the critical section. */
  datatype Phase = Idle | Holding(key: NodeKey) | Missing(key: NodeKey) | Pushed(key: NodeKey, id: NodeId) | Done(id: NodeId)

  datatype Machine = Machine(world: World, lock: Option<nat>, phases: seq<Phase>)

  datatype Action = Acquire(thread: nat) | Lookup(thread: nat) | Push(thread: nat) | Insert(thread: nat) | Release(thread: nat)

  function Boot(prog: Program): Machine {
    Machine(Start(prog), None, seq(|prog|, _ => Idle))
  }

  function Enter(m: Machine, t: nat, phase: Phase): Machine
    requires t < |m.phases|
  {
    m.(phases := m.phases[t := phase])
  }

  /** One step of one thread, if it is possible.  Past `Acquire` nothing consults the lock. */
  function Act(prog: Program, m: Machine, a: Action): Option<Machine> {
    var t, w := a.thread, m.world;
    if t >= |m.phases| then None
    else match (a, m.phases[t])
      case (Acquire(_), Idle) =>
        if m.lock == None && Enabled(prog, w, t)
        then Some(Enter(m, t, Holding(NextKey(prog, w, t))).(lock := Some(t))) else None
      case (Lookup(_), Holding(key)) =>
        if BadInput(key.Inputs(), |w.nodes|).Some? then None
        else Some(Enter(m, t, if key.Canon() in w.table then Done(w.table[key.Canon()]) else Missing(key)))
      case (Push(_), Missing(key)) =>
        Some(Enter(m, t, Pushed(key, |w.nodes|)).(world := w.(nodes := w.nodes + [key])))
      case (Insert(_), Pushed(key, id)) =>
        Some(Enter(m, t, Done(id)).(world := w.(table := w.table[key.Canon() := id])))
      case (Release(_), Done(id)) =>
        if t < |w.results|
        then Some(Enter(m, t, Idle).(world := w.(results := Returned(w, t, id)), lock := None)) else None
      case _ => None
  }

  function Acts(prog: Program, actions: seq<Action>): Option<Machine> {
    if actions == [] then Some(Boot(prog))
    else
      match Acts(prog, actions[..|actions| - 1])
      case None => None
      case Some(m) => Act(prog, m, actions[|actions| - 1])
  }

  /** The threads in the order of their releases. */
  function Releases(actions: seq<Action>): seq<nat> {
    if actions == [] then []
    else
      var last := actions[|actions| - 1];
      Releases(actions[..|actions| - 1]) + if last.Release? then [last.thread] else []
  }

  // ---- the simulation ----

  /** How far the lock holder has come from the atomic world `w` it started in. */
  ghost predicate PhaseFits(m: World, w: World, key: NodeKey, phase: Phase) {
    m.results == w.results && match phase
    case Idle => false
    case Holding(k) => k == key && m == w
    case Missing(k) => k == key && m == w && key.Canon() !in w.table
    case Pushed(k, id) =>
      k == key && key.Canon() !in w.table && id == |w.nodes| && m.table == w.table && m.nodes == w.nodes + [key]
    case Done(id) => (id, m.nodes, m.table) == Intern(w.nodes, w.table, key)
  }

  /** Only the lock holder is inside, and it is on its way from `w` to the next atomic world. */
  ghost predicate Simulates(prog: Program, m: Machine, w: World) {
    && |m.phases| == |prog| == |w.results|
    && (forall t :: 0 <= t < |prog| && m.lock != Some(t) ==> m.phases[t] == Idle)
    && match m.lock
       case None => m.world == w
       case Some(t) => Enabled(prog, w, t) && PhaseFits(m.world, w, NextKey(prog, w, t), m.phases[t])
  }

  /** A thread that is inside holds the lock. */
  lemma InsideHolds(prog: Program, m: Machine, w: World, t: nat)
    requires Simulates(prog, m, w) && t < |m.phases| && m.phases[t] != Idle
    ensures m.lock == Some(t) && Enabled(prog, w, t) && PhaseFits(m.world, w, NextKey(prog, w, t), m.phases[t])
  {
  }

  /** A step inside the critical section stays on the way; the release arrives. */
  lemma ActSimulates(prog: Program, m: Machine, w: World, a: Action)
    requires Simulates(prog, m, w) && Act(prog, m, a).Some?
    ensures a.Release? ==> Enabled(prog, w, a.thread) && Simulates(prog, Act(prog, m, a).value, Step(prog, w, a.thread))
    ensures !a.Release? ==> Simulates(prog, Act(prog, m, a).value, w)
  {
    var t := a.thread;
    if !a.Acquire? {
      InsideHolds(prog, m, w, t);
    }
  }

  lemma RunSnoc(prog: Program, schedule: seq<nat>, t: nat)
    requires Run(prog, schedule).Some? && Enabled(prog, Run(prog, schedule).value, t)
    ensures Run(prog, schedule + [t]) == Some(Step(prog, Run(prog, schedule).value, t))
  {
    assert (schedule + [t])[..|schedule|] == schedule;
  }

  ghost predicate Tracks(prog: Program, m: Option<Machine>, w: Option<World>) {
    m.Some? && w.Some? && Simulates(prog, m.value, w.value)
  }

  lemma TracksStep(prog: Program, m: Machine, schedule: seq<nat>, a: Action)
    requires Tracks(prog, Some(m), Run(prog, schedule)) && Act(prog, m, a).Some?
    ensures Tracks(prog, Act(prog, m, a), Run(prog, schedule + if a.Release? then [a.thread] else []))
  {
    ActSimulates(prog, m, Run(prog, schedule).value, a);
    if a.Release? {
      RunSnoc(prog, schedule, a.thread);
    } else {
      assert schedule + [] == schedule;
    }
  }

  /** Every interleaving of lock-step actions is a run of atomic requests in the order of the releases. */
  lemma {:induction false} LockedIsAtomic(prog: Program, actions: seq<Action>)
    requires Acts(prog, actions).Some?
    ensures Tracks(prog, Acts(prog, actions), Run(prog, Releases(actions)))
  {
    if actions == [] {
      BootTracks(prog);
    } else {
      var init, a := actions[..|actions| - 1], actions[|actions| - 1];
      LockedIsAtomic(prog, init);
      TracksStep(prog, Acts(prog, init).value, Releases(init), a);
    }
  }

  lemma BootTracks(prog: Program)
    ensures Tracks(prog, Some(Boot(prog)), Run(prog, []))
  {
  }

  // ---- what follows for every interleaving ----

  /** No two threads are inside the critical section. */
  lemma MutualExclusion(prog: Program, actions: seq<Action>, t: nat, u: nat)
    requires Acts(prog, actions).Some?
    ensures var m := Acts(prog, actions).value;
      t < |m.phases| && u < |m.phases| && m.phases[t] != Idle && m.phases[u] != Idle ==> t == u
  {
    LockedIsAtomic(prog, actions);
  }

  function NextAction(phase: Phase, t: nat): Action {
    match phase
    case Idle => Acquire(t)
    case Holding(_) => Lookup(t)
    case Missing(_) => Push(t)
    case Pushed(_, _) => Insert(t)
    case Done(_) => Release(t)
  }

  lemma PhaseProceeds(prog: Program, m: Machine, w: World, t: nat)
    requires Simulates(prog, m, w) && m.lock == Some(t) && t < |m.phases| && Enabled(prog, w, t)
    requires BadInput(NextKey(prog, w, t).Inputs(), |w.nodes|).None?
    ensures Act(prog, m, NextAction(m.phases[t], t)).Some?
  {
    assert PhaseFits(m.world, w, NextKey(prog, w, t), m.phases[t]);
  }

  /** The lock is never held for ever: the holder's next step is always possible, so no request is
      rejected and the release is reached. */
  lemma HolderProceeds(prog: Program, actions: seq<Action>, t: nat)
    requires Acts(prog, actions).Some? && Acts(prog, actions).value.lock == Some(t)
    ensures var m := Acts(prog, actions).value; t < |m.phases| && Act(prog, m, NextAction(m.phases[t], t)).Some?
  {
    LockedIsAtomic(prog, actions);
    var w := Run(prog, Releases(actions)).value;
    RunConsistent(prog, Releases(actions));
    IdsInRange(prog, w, prog[t][|w.results[t]|].args);
    PhaseProceeds(prog, Acts(prog, actions).value, w, t);
  }

  /** Whenever the lock is free, the store is one that atomic requests produce. */
  lemma FreeIsAtomic(prog: Program, actions: seq<Action>)
    requires Acts(prog, actions).Some? && Acts(prog, actions).value.lock == None
    ensures Run(prog, Releases(actions)) == Some(Acts(prog, actions).value.world)
    ensures Consistent(prog, Acts(prog, actions).value.world)
  {
    LockedIsAtomic(prog, actions);
    RunConsistent(prog, Releases(actions));
  }

  /** All interleavings of the locked steps that carry out the whole program store the same terms, each
      once, and so count the same nodes. */
  lemma LockedStoreScheduleIndependent(prog: Program, a1: seq<Action>, a2: seq<Action>)
    requires Acts(prog, a1).Some? && Acts(prog, a1).value.lock == None && Complete(prog, Acts(prog, a1).value.world)
    requires Acts(prog, a2).Some? && Acts(prog, a2).value.lock == None && Complete(prog, Acts(prog, a2).value.world)
    ensures var w, v := Acts(prog, a1).value.world, Acts(prog, a2).value.world;
      && TopologicalKeys(w.nodes) && TopologicalKeys(v.nodes)
      && StoredTerms(w) == StoredTerms(v) && |w.nodes| == |v.nodes|
  {
    FreeIsAtomic(prog, a1);
    FreeIsAtomic(prog, a2);
    FinalStoreScheduleIndependent(prog, Releases(a1), Releases(a2));
  }
}
