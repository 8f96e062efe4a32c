/** Threads recording nodes in one shared store.

A program gives every thread a list of requests; a request applies an operator to the ids returned by
earlier requests, of any thread.  One request at a time is carried out atomically, in any order the
scheduler likes, as long as the ids it uses have been returned.  `Locking` shows that the mutex around
the store makes requests atomic. */
module Concurrency {
  import opened Wrappers
  import opened Selection
  import opened Terms
  import opened Cells
  import opened Node
  import opened Arena
  import opened Interning

  /** The id returned by a request: the `index`-th of a thread. */
  datatype Ref = Ref(thread: nat, index: nat)

  datatype Request = Request(operator: NodeKey, args: seq<Ref>)

  type Program = seq<seq<Request>>

  /** The shared store, and the ids returned to each thread so far. */
  datatype World = World(nodes: seq<NodeKey>, table: map<NodeKey, NodeId>, results: seq<seq<NodeId>>)

  function Start(prog: Program): World {
    World([], map[], seq(|prog|, _ => []))
  }

  predicate Known(w: World, r: Ref) {
    r.thread < |w.results| && r.index < |w.results[r.thread]|
  }

  function IdOf(w: World, r: Ref): NodeId
    requires Known(w, r)
  {
    w.results[r.thread][r.index]
  }

  predicate AllKnown(w: World, args: seq<Ref>) {
    forall a :: 0 <= a < |args| ==> Known(w, args[a])
  }

  function Ids(w: World, args: seq<Ref>): (ids: seq<NodeId>)
    requires AllKnown(w, args)
    ensures |ids| == |args|
    ensures forall a {:trigger ids[a]} :: 0 <= a < |args| ==> ids[a] == IdOf(w, args[a])
  {
    seq(|args|, a requires 0 <= a < |args| => IdOf(w, args[a]))
  }

  /** The key a request asks for. */
  function KeyOf(w: World, req: Request): NodeKey
    requires AllKnown(w, req.args)
  {
    req.operator.WithInputs(Ids(w, req.args))
  }

  predicate Enabled(prog: Program, w: World, t: nat) {
    && t < |prog| == |w.results| && |w.results[t]| < |prog[t]|
    && AllKnown(w, prog[t][|w.results[t]|].args)
  }

  function NextKey(prog: Program, w: World, t: nat): NodeKey
    requires Enabled(prog, w, t)
  {
    KeyOf(w, prog[t][|w.results[t]|])
  }

  function Returned(w: World, t: nat, id: NodeId): seq<seq<NodeId>>
    requires t < |w.results|
  {
    w.results[t := w.results[t] + [id]]
  }

  /** Thread `t` carries out its next request. */
  function Step(prog: Program, w: World, t: nat): World
    requires Enabled(prog, w, t)
  {
    var (id, nodes, table) := Intern(w.nodes, w.table, NextKey(prog, w, t));
    World(nodes, table, Returned(w, t, id))
  }

  /** The world after a schedule, if every step of it was possible. */
  function Run(prog: Program, schedule: seq<nat>): Option<World> {
    if schedule == [] then Some(Start(prog))
    else
      var t := schedule[|schedule| - 1];
      match Run(prog, schedule[..|schedule| - 1])
      case None => None
      case Some(w) => if Enabled(prog, w, t) then Some(Step(prog, w, t)) else None
  }

  // ---- what every interleaving keeps ----

  /** A returned id names a node that is structurally what the request asked for. */
  ghost predicate Answered(prog: Program, w: World, t: nat, k: nat)
    requires |w.results| == |prog| && t < |prog| && k < |w.results[t]|
  {
    && k < |prog[t]| && AllKnown(w, prog[t][k].args) && w.results[t][k] < |w.nodes|
    && w.nodes[w.results[t][k]].Canon() == KeyOf(w, prog[t][k]).Canon()
  }

  ghost predicate AllAnswered(prog: Program, w: World)
    requires |w.results| == |prog|
  {
    forall t, k {:trigger w.results[t][k]} :: 0 <= t < |prog| && 0 <= k < |w.results[t]| ==> Answered(prog, w, t, k)
  }

  ghost predicate Requested(w: World, c: NodeId) {
    exists r :: Known(w, r) && IdOf(w, r) == c
  }

  /** Every node was asked for. */
  ghost predicate AllRequested(w: World) {
    forall c :: 0 <= c < |w.nodes| ==> Requested(w, c)
  }

  /** Inputs precede nodes, table and arena are exact inverses, and the nodes are exactly what was
      asked for. */
  ghost predicate Consistent(prog: Program, w: World) {
    && |w.results| == |prog|
    && TopologicalKeys(w.nodes) && TableExact(w.nodes, w.table)
    && AllAnswered(prog, w) && AllRequested(w)
  }

  lemma KnownLater(w: World, t: nat, id: NodeId, nodes: seq<NodeKey>, table: map<NodeKey, NodeId>, args: seq<Ref>)
    requires t < |w.results| && AllKnown(w, args)
    ensures AllKnown(World(nodes, table, Returned(w, t, id)), args)
    ensures Ids(World(nodes, table, Returned(w, t, id)), args) == Ids(w, args)
  {
    var w' := World(nodes, table, Returned(w, t, id));
    forall a | 0 <= a < |args|
      ensures Known(w', args[a]) && IdOf(w', args[a]) == IdOf(w, args[a])
    {
      assert Known(w, args[a]);
    }
  }

  lemma IdsInRange(prog: Program, w: World, args: seq<Ref>)
    requires Consistent(prog, w) && AllKnown(w, args)
    ensures AllBelow(Ids(w, args), |w.nodes|)
  {
    forall a | 0 <= a < |args|
      ensures Ids(w, args)[a] < |w.nodes|
    {
      assert Known(w, args[a]);
      assert Answered(prog, w, args[a].thread, args[a].index);
    }
  }

  lemma StepAnswered(prog: Program, w: World, t: nat, t': nat, k: nat)
    requires Consistent(prog, w) && Enabled(prog, w, t)
    requires var w' := Step(prog, w, t); w.nodes <= w'.nodes && t' < |prog| && k < |w'.results[t']|
    requires var (id, nodes, _) := Intern(w.nodes, w.table, NextKey(prog, w, t));
      id < |nodes| && nodes[id].Canon() == NextKey(prog, w, t).Canon()
    ensures Answered(prog, Step(prog, w, t), t', k)
  {
    var w' := Step(prog, w, t);
    var id := w'.results[t][|w.results[t]|];
    if t' == t && k == |w.results[t]| {
      KnownLater(w, t, id, w'.nodes, w'.table, prog[t][k].args);
    } else {
      assert w.results[t'][k] == w'.results[t'][k];
      assert Answered(prog, w, t', k);
      KnownLater(w, t, id, w'.nodes, w'.table, prog[t'][k].args);
    }
  }

  lemma StepRequested(prog: Program, w: World, t: nat, c: nat)
    requires Consistent(prog, w) && Enabled(prog, w, t) && c < |Step(prog, w, t).nodes|
    requires var (id, nodes, _) := Intern(w.nodes, w.table, NextKey(prog, w, t));
      id < |nodes| && nodes == if id < |w.nodes| then w.nodes else w.nodes + [NextKey(prog, w, t)]
    ensures Requested(Step(prog, w, t), c)
  {
    var w' := Step(prog, w, t);
    if c < |w.nodes| {
      assert Requested(w, c);
      var r :| Known(w, r) && IdOf(w, r) == c;
      assert Known(w', r) && IdOf(w', r) == c;
    } else {
      var r := Ref(t, |w.results[t]|);
      assert Known(w', r) && IdOf(w', r) == c;
    }
  }

  lemma StepConsistent(prog: Program, w: World, t: nat)
    requires Consistent(prog, w) && Enabled(prog, w, t)
    ensures Consistent(prog, Step(prog, w, t)) && w.nodes <= Step(prog, w, t).nodes
  {
    var k := NextKey(prog, w, t);
    IdsInRange(prog, w, prog[t][|w.results[t]|].args);
    InternFacts(w.nodes, w.table, k);
    var w' := Step(prog, w, t);
    forall t', k | 0 <= t' < |prog| && 0 <= k < |w'.results[t']|
      ensures Answered(prog, w', t', k)
    {
      StepAnswered(prog, w, t, t', k);
    }
    forall c | 0 <= c < |w'.nodes|
      ensures Requested(w', c)
    {
      StepRequested(prog, w, t, c);
    }
  }

  /** Every schedule keeps the store consistent. */
  lemma {:induction false} RunConsistent(prog: Program, schedule: seq<nat>)
    requires Run(prog, schedule).Some?
    ensures Consistent(prog, Run(prog, schedule).value)
  {
    if schedule != [] {
      var init, t := schedule[..|schedule| - 1], schedule[|schedule| - 1];
      RunConsistent(prog, init);
      StepConsistent(prog, Run(prog, init).value, t);
    }
  }

  /** Every node and every returned id is still what it was. */
  ghost predicate Keeps(w: World, w': World) {
    w.nodes <= w'.nodes && forall r :: Known(w, r) ==> Known(w', r) && IdOf(w', r) == IdOf(w, r)
  }

  lemma StepKeeps(prog: Program, w: World, t: nat)
    requires Consistent(prog, w) && Enabled(prog, w, t)
    ensures Keeps(w, Step(prog, w, t))
  {
    StepConsistent(prog, w, t);
  }

  lemma KeepsTransitive(u: World, v: World, w: World)
    requires Keeps(u, v) && Keeps(v, w)
    ensures Keeps(u, w)
  {
  }

  lemma RunLast(prog: Program, schedule: seq<nat>, t: nat)
    requires Run(prog, schedule + [t]).Some?
    ensures Run(prog, schedule).Some? && Enabled(prog, Run(prog, schedule).value, t)
    ensures Run(prog, schedule + [t]).value == Step(prog, Run(prog, schedule).value, t)
  {
    assert (schedule + [t])[..|schedule|] == schedule;
  }

  /** Later steps change no node and no returned id. */
  lemma {:induction false} IdsNeverChange(prog: Program, schedule: seq<nat>, more: seq<nat>)
    requires Run(prog, schedule + more).Some?
    ensures Run(prog, schedule).Some? && Keeps(Run(prog, schedule).value, Run(prog, schedule + more).value)
    decreases |more|
  {
    if more == [] {
      assert schedule + more == schedule;
    } else {
      var init, t := more[..|more| - 1], more[|more| - 1];
      assert schedule + more == schedule + init + [t];
      RunLast(prog, schedule + init, t);
      IdsNeverChange(prog, schedule, init);
      RunConsistent(prog, schedule + init);
      var v := Run(prog, schedule + init).value;
      StepKeeps(prog, v, t);
      KeepsTransitive(Run(prog, schedule).value, v, Step(prog, v, t));
    }
  }

  // ---- ids are terms ----

  ghost function TermOf(prog: Program, w: World, r: Ref): Term<NodeKey>
    requires Consistent(prog, w) && Known(w, r)
  {
    assert Answered(prog, w, r.thread, r.index);
    Unfold(HeadCells(w.nodes), IdOf(w, r))
  }

  /** Two requests get one id exactly when they ask for the same term, whichever threads they are of. */
  lemma SameIdSameTerm(prog: Program, w: World, r: Ref, s: Ref)
    requires Consistent(prog, w) && Known(w, r) && Known(w, s)
    ensures IdOf(w, r) == IdOf(w, s) <==> TermOf(prog, w, r) == TermOf(prog, w, s)
  {
    assert Answered(prog, w, r.thread, r.index) && Answered(prog, w, s.thread, s.index);
    IdsAreTerms(w.nodes, w.table, IdOf(w, r), IdOf(w, s));
  }

  /** What a request gets: its operator over the ids of its arguments. */
  lemma AnswerCell(prog: Program, w: World, r: Ref)
    requires Consistent(prog, w) && Known(w, r)
    ensures r.index < |prog[r.thread]| && IdOf(w, r) < |w.nodes|
    ensures var req, cell := prog[r.thread][r.index], HeadCells(w.nodes)[IdOf(w, r)];
      && AllKnown(w, req.args) && cell.sym == req.operator.Head()
      && cell.inputs == (if req.operator.Source? then [] else Ids(w, req.args)) && AllBelow(cell.inputs, IdOf(w, r))
  {
    assert Answered(prog, w, r.thread, r.index);
    var req := prog[r.thread][r.index];
    SameHeadCell(w.nodes[IdOf(w, r)], KeyOf(w, req));
    HeadIdempotent(req.operator, Ids(w, req.args));
  }

  /** The term a request gets does not depend on the schedule. */
  lemma {:induction false} SameTermEverywhere(prog: Program, w: World, v: World, r: Ref)
    requires Consistent(prog, w) && Consistent(prog, v) && Known(w, r) && Known(v, r)
    ensures TermOf(prog, w, r) == TermOf(prog, v, r)
    decreases IdOf(w, r)
  {
    AnswerCell(prog, w, r);
    AnswerCell(prog, v, r);
    var g, h := HeadCells(w.nodes), HeadCells(v.nodes);
    var xs, ys, args := g[IdOf(w, r)].inputs, h[IdOf(v, r)].inputs, prog[r.thread][r.index].args;
    forall a | 0 <= a < |xs|
      ensures Unfold(g, xs[a]) == Unfold(h, ys[a])
    {
      assert Known(w, args[a]) && Known(v, args[a]);
      SameTermEverywhere(prog, w, v, args[a]);
    }
    SameCellTerm(g, IdOf(w, r), h, IdOf(v, r));
  }

  // ---- the final store ----

  /** All the terms in the store. */
  ghost function StoredTerms(w: World): set<Term<NodeKey>>
    requires TopologicalKeys(w.nodes)
  {
    TermsTo(HeadCells(w.nodes), |w.nodes|)
  }

  lemma StoredCount(prog: Program, w: World)
    requires Consistent(prog, w)
    ensures |StoredTerms(w)| == |w.nodes|
  {
    TableHashConsed(w.nodes, w.table);
    TermsCount(HeadCells(w.nodes), |w.nodes|);
  }

  ghost predicate Complete(prog: Program, w: World) {
    |w.results| == |prog| && forall t :: 0 <= t < |prog| ==> |w.results[t]| == |prog[t]|
  }

  lemma StoredElsewhere(prog: Program, w: World, v: World, c: NodeId)
    requires Consistent(prog, w) && Consistent(prog, v) && Complete(prog, v) && c < |w.nodes|
    ensures Unfold(HeadCells(w.nodes), c) in StoredTerms(v)
  {
    assert Requested(w, c);
    var r :| Known(w, r) && IdOf(w, r) == c;
    assert Answered(prog, w, r.thread, r.index);
    assert Known(v, r);
    SameTermEverywhere(prog, w, v, r);
    assert Answered(prog, v, r.thread, r.index);
    TermsToHas(HeadCells(v.nodes), |v.nodes|, IdOf(v, r));
  }

  /** Whatever was stored by some run is stored by every complete one. */
  lemma StoredByComplete(prog: Program, w: World, v: World)
    requires Consistent(prog, w) && Consistent(prog, v) && Complete(prog, v)
    ensures StoredTerms(w) <= StoredTerms(v)
  {
    forall t | t in StoredTerms(w)
      ensures t in StoredTerms(v)
    {
      var c := TermsToFrom(HeadCells(w.nodes), |w.nodes|, t);
      StoredElsewhere(prog, w, v, c);
    }
  }

  /** Every schedule that completes the program stores the same terms, each once: the node count does not
      depend on the interleaving. */
  lemma FinalStoreScheduleIndependent(prog: Program, s1: seq<nat>, s2: seq<nat>)
    requires Run(prog, s1).Some? && Run(prog, s2).Some?
    requires Complete(prog, Run(prog, s1).value) && Complete(prog, Run(prog, s2).value)
    ensures var w, v := Run(prog, s1).value, Run(prog, s2).value;
      && TopologicalKeys(w.nodes) && TopologicalKeys(v.nodes)
      && StoredTerms(w) == StoredTerms(v) && |w.nodes| == |v.nodes|
  {
    RunConsistent(prog, s1);
    RunConsistent(prog, s2);
    var w, v := Run(prog, s1).value, Run(prog, s2).value;
    StoredByComplete(prog, w, v);
    StoredByComplete(prog, v, w);
    StoredCount(prog, w);
    StoredCount(prog, v);
  }
}
