/** Constructor-local canonicalization, for any operators: placing each cell of a graph once, in order,
on an arena that never holds two cells with one normal form.

Identity cells go to their input, a cell already present (as it is, or with its two arguments swapped
if its operator is symmetric) goes to the present one, and any other cell is appended. */
module LocalCanon {
  import opened Selection
  import opened Terms
  import opened Cells

  ghost predicate IsSwap<S>(th: Theory<S>, a: Cell<S>, b: Cell<S>) {
    th.symmetric(a.sym) && |a.inputs| == 2 && b == Cell(a.sym, [a.inputs[1], a.inputs[0]])
  }

  /** Where one cell goes, and what the arena is afterwards. */
  ghost predicate Places<S>(th: Theory<S>, canon: seq<Cell<S>>, cell: Cell<S>, id: nat, canon': seq<Cell<S>>) {
    if th.identity(cell.sym) then
      cell.inputs != [] && id == cell.inputs[0] && canon' == canon
    else if id < |canon| then
      canon' == canon && (canon[id] == cell || IsSwap(th, cell, canon[id]))
    else
      && id == |canon| && canon' == canon + [cell]
      && forall c :: 0 <= c < |canon| ==> canon[c] != cell && !IsSwap(th, cell, canon[c])
  }

  ghost predicate OneFormEach<S>(th: Theory<S>, canon: seq<Cell<S>>)
    requires Topological(canon)
  {
    forall c, d {:trigger Form(th, canon, c), Form(th, canon, d)} :: 0 <= c < d < |canon| ==>
      Form(th, canon, c) != Form(th, canon, d)
  }

  /** Identity-free, with one position per normal form. */
  ghost predicate Canonical<S>(th: Theory<S>, canon: seq<Cell<S>>) {
    && Topological(canon)
    && (forall c :: 0 <= c < |canon| ==> !th.identity(canon[c].sym))
    && OneFormEach(th, canon)
  }

  /** Equal forms of non-identity cells: same operator over the same arguments, or over swapped ones. */
  lemma CombineInjective<S>(th: Theory<S>, sym: S, xs: seq<NTerm<S>>, sym': S, ys: seq<NTerm<S>>)
    requires !th.identity(sym) && !th.identity(sym')
    requires Combine(th, sym, xs) == Combine(th, sym', ys)
    ensures sym == sym' && |xs| == |ys|
    ensures xs == ys || (th.symmetric(sym) && |xs| == 2 && xs[0] == ys[1] && xs[1] == ys[0])
  {
    if th.symmetric(sym) && |xs| == 2 {
      PairsEqual(xs[0], xs[1], ys[0], ys[1]);
      assert xs == [xs[0], xs[1]] && ys == [ys[0], ys[1]];
    }
  }

  lemma FormInjective<S>(th: Theory<S>, canon: seq<Cell<S>>, c: nat, d: nat)
    requires Canonical(th, canon) && c < |canon| && d < |canon|
    requires Form(th, canon, c) == Form(th, canon, d)
    ensures c == d
  {
    assert c < d || d < c || c == d;
  }

  lemma FormsInjective<S>(th: Theory<S>, canon: seq<Cell<S>>, xs: seq<nat>, ys: seq<nat>)
    requires Canonical(th, canon) && AllBelow(xs, |canon|) && AllBelow(ys, |canon|)
    requires Forms(th, canon, xs) == Forms(th, canon, ys)
    ensures xs == ys
  {
    assert |xs| == |Forms(th, canon, xs)| == |ys|;
    forall k | 0 <= k < |xs|
      ensures xs[k] == ys[k]
    {
      assert Forms(th, canon, xs)[k] == Forms(th, canon, ys)[k];
      FormInjective(th, canon, xs[k], ys[k]);
    }
  }

  lemma FormsAt<S>(th: Theory<S>, g: seq<Cell<S>>, xs: seq<nat>, k: nat)
    requires Topological(g) && AllBelow(xs, |g|) && k < |xs|
    ensures Forms(th, g, xs)[k] == Form(th, g, xs[k])
  {
  }

  lemma SwappedInputs<S>(th: Theory<S>, canon: seq<Cell<S>>, xs: seq<nat>, ys: seq<nat>)
    requires Canonical(th, canon) && AllBelow(xs, |canon|) && AllBelow(ys, |canon|) && |xs| == |ys| == 2
    requires Forms(th, canon, xs)[0] == Forms(th, canon, ys)[1] && Forms(th, canon, xs)[1] == Forms(th, canon, ys)[0]
    ensures ys == [xs[1], xs[0]]
  {
    FormsAt(th, canon, xs, 0);
    FormsAt(th, canon, xs, 1);
    FormsAt(th, canon, ys, 0);
    FormsAt(th, canon, ys, 1);
    FormInjective(th, canon, xs[0], ys[1]);
    FormInjective(th, canon, xs[1], ys[0]);
  }

  /** A cell whose form is already present is present itself, as it is or swapped. */
  lemma PresentForm<S>(th: Theory<S>, canon: seq<Cell<S>>, cell: Cell<S>, c: nat)
    requires Canonical(th, canon) && AllBelow(cell.inputs, |canon|) && !th.identity(cell.sym) && c < |canon|
    requires Form(th, canon, c) == Combine(th, cell.sym, Forms(th, canon, cell.inputs))
    ensures canon[c] == cell || IsSwap(th, cell, canon[c])
  {
    FormStep(th, canon, c);
    var xs, ys := cell.inputs, canon[c].inputs;
    var us, vs := Forms(th, canon, xs), Forms(th, canon, ys);
    CombineInjective(th, cell.sym, us, canon[c].sym, vs);
    if us == vs {
      FormsInjective(th, canon, xs, ys);
    } else {
      SwappedInputs(th, canon, xs, ys);
    }
  }

  /** A swapped cell has the same form. */
  lemma SwapForm<S>(th: Theory<S>, canon: seq<Cell<S>>, cell: Cell<S>, c: nat)
    requires Topological(canon) && AllBelow(cell.inputs, |canon|) && !th.identity(cell.sym) && c < |canon|
    requires canon[c] == cell || IsSwap(th, cell, canon[c])
    ensures Form(th, canon, c) == Combine(th, cell.sym, Forms(th, canon, cell.inputs))
  {
    FormStep(th, canon, c);
    if canon[c] != cell {
      var us, vs := Forms(th, canon, cell.inputs), Forms(th, canon, canon[c].inputs);
      assert vs[0] == us[1] && vs[1] == us[0];
      assert multiset{us[0], us[1]} == multiset{us[1], us[0]};
    }
  }

  /** Appending a cell keeps the earlier forms and gives the new one its own. */
  lemma AppendForm<S>(th: Theory<S>, g: seq<Cell<S>>, cell: Cell<S>)
    requires Topological(g) && AllBelow(cell.inputs, |g|)
    ensures Topological(g + [cell])
    ensures Form(th, g + [cell], |g|) == Combine(th, cell.sym, Forms(th, g, cell.inputs))
    ensures forall c :: 0 <= c < |g| ==> Form(th, g + [cell], c) == Form(th, g, c)
  {
    var more := g + [cell];
    forall i | 0 <= i < |more|
      ensures AllBelow(more[i].inputs, i)
    {
      if i < |g| {
        assert more[i] == g[i];
      }
    }
    forall c | 0 <= c < |g|
      ensures Form(th, more, c) == Form(th, g, c)
    {
      PrefixTerms(g, more, c);
    }
    FormStep(th, more, |g|);
    assert Forms(th, more, cell.inputs) == Forms(th, g, cell.inputs);
  }

  lemma NewFormAbsent<S>(th: Theory<S>, canon: seq<Cell<S>>, cell: Cell<S>, c: nat)
    requires Canonical(th, canon) && AllBelow(cell.inputs, |canon|) && !th.identity(cell.sym) && c < |canon|
    requires canon[c] != cell && !IsSwap(th, cell, canon[c])
    ensures Form(th, canon, c) != Combine(th, cell.sym, Forms(th, canon, cell.inputs))
  {
    if Form(th, canon, c) == Combine(th, cell.sym, Forms(th, canon, cell.inputs)) {
      PresentForm(th, canon, cell, c);
    }
  }

  lemma AppendDistinct<S>(th: Theory<S>, canon: seq<Cell<S>>, cell: Cell<S>, c: nat, d: nat)
    requires Canonical(th, canon) && AllBelow(cell.inputs, |canon|) && !th.identity(cell.sym)
    requires forall c :: 0 <= c < |canon| ==> canon[c] != cell && !IsSwap(th, cell, canon[c])
    requires c < d <= |canon| && Topological(canon + [cell])
    ensures Form(th, canon + [cell], c) != Form(th, canon + [cell], d)
  {
    AppendForm(th, canon, cell);
    if d < |canon| {
      assert Form(th, canon, c) != Form(th, canon, d);
    } else {
      NewFormAbsent(th, canon, cell, c);
    }
  }

  lemma AppendCanonical<S>(th: Theory<S>, canon: seq<Cell<S>>, cell: Cell<S>)
    requires Canonical(th, canon) && AllBelow(cell.inputs, |canon|) && !th.identity(cell.sym)
    requires forall c :: 0 <= c < |canon| ==> canon[c] != cell && !IsSwap(th, cell, canon[c])
    ensures Canonical(th, canon + [cell])
  {
    AppendOneForm(th, canon, cell);
    var more := canon + [cell];
    assert forall c :: 0 <= c < |more| ==> !th.identity(more[c].sym);
  }

  lemma AppendOneForm<S>(th: Theory<S>, canon: seq<Cell<S>>, cell: Cell<S>)
    requires Canonical(th, canon) && AllBelow(cell.inputs, |canon|) && !th.identity(cell.sym)
    requires forall c :: 0 <= c < |canon| ==> canon[c] != cell && !IsSwap(th, cell, canon[c])
    ensures Topological(canon + [cell]) && OneFormEach(th, canon + [cell])
  {
    AppendForm(th, canon, cell);
    var more := canon + [cell];
    forall c, d | 0 <= c < d < |more|
      ensures Form(th, more, c) != Form(th, more, d)
    {
      AppendDistinct(th, canon, cell, c, d);
    }
  }

  /** One placement keeps the arena canonical; a non-identity cell lands on its own form. */
  lemma PlacesStep<S>(th: Theory<S>, canon: seq<Cell<S>>, cell: Cell<S>, id: nat, canon': seq<Cell<S>>)
    requires Canonical(th, canon) && AllBelow(cell.inputs, |canon|) && Places(th, canon, cell, id, canon')
    ensures Canonical(th, canon') && canon <= canon' && id < |canon'|
    ensures !th.identity(cell.sym) ==> Form(th, canon', id) == Combine(th, cell.sym, Forms(th, canon, cell.inputs))
    ensures forall c :: 0 <= c < |canon| ==> Form(th, canon', c) == Form(th, canon, c)
  {
    if th.identity(cell.sym) {
    } else if id < |canon| {
      SwapForm(th, canon, cell, id);
    } else {
      AppendCanonical(th, canon, cell);
      AppendForm(th, canon, cell);
    }
  }

  // ---- whole runs ----

  ghost predicate UnaryIdentities<S>(th: Theory<S>, g: seq<Cell<S>>) {
    forall i :: 0 <= i < |g| && th.identity(g[i].sym) ==> |g[i].inputs| == 1
  }

  /** The arena `canon` and the renumbering `f` after placing all of `g`. */
  ghost predicate Placed<S>(th: Theory<S>, g: seq<Cell<S>>, canon: seq<Cell<S>>, f: seq<nat>) {
    && Topological(g) && Canonical(th, canon)
    && |f| == |g| && AllBelow(f, |canon|)
    && (forall i {:trigger FollowsInput(g, f, i)} :: 0 <= i < |g| && th.identity(g[i].sym) ==> FollowsInput(g, f, i))
    && (forall i {:trigger LandsOn(th, g, canon, f, i)} :: 0 <= i < |g| && !th.identity(g[i].sym) ==> LandsOn(th, g, canon, f, i))
    && (UnaryIdentities(th, g) ==> SameForms(th, g, canon, f))
  }

  /** The cell over the new places of its inputs, as it is or swapped. */
  ghost predicate LandsOn<S>(th: Theory<S>, g: seq<Cell<S>>, canon: seq<Cell<S>>, f: seq<nat>, i: nat)
    requires Topological(g) && |f| == |g| && i < |g|
  {
    var cell := Cell(g[i].sym, Renumber(f, g[i].inputs));
    f[i] < |canon| && (canon[f[i]] == cell || IsSwap(th, cell, canon[f[i]]))
  }

  ghost predicate FollowsInput<S>(g: seq<Cell<S>>, f: seq<nat>, i: nat)
    requires Topological(g) && |f| == |g| && i < |g|
  {
    g[i].inputs != [] && f[i] == f[g[i].inputs[0]]
  }

  ghost predicate SameForms<S>(th: Theory<S>, g: seq<Cell<S>>, canon: seq<Cell<S>>, f: seq<nat>)
    requires Topological(g) && Topological(canon) && |f| == |g| && AllBelow(f, |canon|)
  {
    forall i {:trigger f[i]} :: 0 <= i < |g| ==> Form(th, canon, f[i]) == Form(th, g, i)
  }

  lemma RenumberedForms<S>(th: Theory<S>, g: seq<Cell<S>>, canon: seq<Cell<S>>, f: seq<nat>, xs: seq<nat>)
    requires Topological(g) && Topological(canon) && |f| == |g| && AllBelow(f, |canon|)
    requires SameForms(th, g, canon, f) && AllBelow(xs, |g|)
    ensures AllBelow(Renumber(f, xs), |canon|)
    ensures Forms(th, canon, Renumber(f, xs)) == Forms(th, g, xs)
  {
    forall k | 0 <= k < |xs|
      ensures Forms(th, canon, Renumber(f, xs))[k] == Forms(th, g, xs)[k]
    {
      assert Form(th, canon, f[xs[k]]) == Form(th, g, xs[k]);
    }
  }

  lemma PlacedForm<S>(th: Theory<S>, g: seq<Cell<S>>, canon: seq<Cell<S>>, f: seq<nat>,
                      cell: Cell<S>, id: nat, canon': seq<Cell<S>>)
    requires Placed(th, g, canon, f) && SameForms(th, g, canon, f) && AllBelow(cell.inputs, |g|)
    requires Places(th, canon, Cell(cell.sym, Renumber(f, cell.inputs)), id, canon')
    requires th.identity(cell.sym) ==> |cell.inputs| == 1
    ensures Topological(canon') && id < |canon'|
    ensures Form(th, canon', id) == Combine(th, cell.sym, Forms(th, g, cell.inputs))
  {
    var k := Cell(cell.sym, Renumber(f, cell.inputs));
    RenumberedForms(th, g, canon, f, cell.inputs);
    PlacesStep(th, canon, k, id, canon');
    if th.identity(cell.sym) {
      assert id == f[cell.inputs[0]];
    }
  }

  lemma PlacedSameForms<S>(th: Theory<S>, g: seq<Cell<S>>, canon: seq<Cell<S>>, f: seq<nat>,
                           cell: Cell<S>, id: nat, canon': seq<Cell<S>>)
    requires Placed(th, g, canon, f) && SameForms(th, g, canon, f) && AllBelow(cell.inputs, |g|)
    requires Places(th, canon, Cell(cell.sym, Renumber(f, cell.inputs)), id, canon')
    requires th.identity(cell.sym) ==> |cell.inputs| == 1
    ensures Topological(g + [cell]) && Topological(canon') && AllBelow(f + [id], |canon'|)
    ensures SameForms(th, g + [cell], canon', f + [id])
  {
    PlacesStep(th, canon, Cell(cell.sym, Renumber(f, cell.inputs)), id, canon');
    AppendForm(th, g, cell);
    PlacedForm(th, g, canon, f, cell, id, canon');
    forall i | 0 <= i < |g + [cell]|
      ensures Form(th, canon', (f + [id])[i]) == Form(th, g + [cell], i)
    {
      if i < |g| {
        assert (f + [id])[i] == f[i] && Form(th, canon, f[i]) == Form(th, g, i);
      }
    }
  }

  lemma UnaryPrefix<S>(th: Theory<S>, g: seq<Cell<S>>, cell: Cell<S>)
    requires UnaryIdentities(th, g + [cell])
    ensures UnaryIdentities(th, g) && (th.identity(cell.sym) ==> |cell.inputs| == 1)
  {
    var more := g + [cell];
    assert more[|g|] == cell;
    forall i | 0 <= i < |g| && th.identity(g[i].sym)
      ensures |g[i].inputs| == 1
    {
      assert more[i] == g[i];
    }
  }

  lemma StillFollows<S>(th: Theory<S>, g: seq<Cell<S>>, canon: seq<Cell<S>>, f: seq<nat>,
                        cell: Cell<S>, id: nat, canon': seq<Cell<S>>, i: nat)
    requires Placed(th, g, canon, f) && AllBelow(cell.inputs, |g|) && Topological(g + [cell])
    requires Places(th, canon, Cell(cell.sym, Renumber(f, cell.inputs)), id, canon')
    requires i <= |g| && th.identity((g + [cell])[i].sym)
    ensures FollowsInput(g + [cell], f + [id], i)
  {
    if i < |g| {
      assert FollowsInput(g, f, i);
    } else {
      assert Renumber(f, cell.inputs)[0] == f[cell.inputs[0]];
    }
  }

  lemma StillLands<S>(th: Theory<S>, g: seq<Cell<S>>, canon: seq<Cell<S>>, f: seq<nat>,
                      cell: Cell<S>, id: nat, canon': seq<Cell<S>>, i: nat)
    requires Placed(th, g, canon, f) && AllBelow(cell.inputs, |g|) && canon <= canon' && Topological(g + [cell])
    requires Places(th, canon, Cell(cell.sym, Renumber(f, cell.inputs)), id, canon')
    requires i <= |g| && !th.identity((g + [cell])[i].sym)
    ensures LandsOn(th, g + [cell], canon', f + [id], i)
  {
    if i < |g| {
      assert LandsOn(th, g, canon, f, i);
      assert Renumber(f + [id], g[i].inputs) == Renumber(f, g[i].inputs);
    } else {
      assert Renumber(f + [id], cell.inputs) == Renumber(f, cell.inputs);
    }
  }

  /** Placing one more cell. */
  lemma PlacedStep<S>(th: Theory<S>, g: seq<Cell<S>>, canon: seq<Cell<S>>, f: seq<nat>,
                      cell: Cell<S>, id: nat, canon': seq<Cell<S>>)
    requires Placed(th, g, canon, f) && AllBelow(cell.inputs, |g|)
    requires Places(th, canon, Cell(cell.sym, Renumber(f, cell.inputs)), id, canon')
    ensures Placed(th, g + [cell], canon', f + [id])
  {
    var more, f' := g + [cell], f + [id];
    PlacesStep(th, canon, Cell(cell.sym, Renumber(f, cell.inputs)), id, canon');
    AppendForm(th, g, cell);
    forall i | 0 <= i < |more| && th.identity(more[i].sym)
      ensures FollowsInput(more, f', i)
    {
      StillFollows(th, g, canon, f, cell, id, canon', i);
    }
    forall i | 0 <= i < |more| && !th.identity(more[i].sym)
      ensures LandsOn(th, more, canon', f', i)
    {
      StillLands(th, g, canon, f, cell, id, canon', i);
    }
    if UnaryIdentities(th, more) {
      UnaryPrefix(th, g, cell);
      PlacedSameForms(th, g, canon, f, cell, id, canon');
    }
  }

  lemma {:induction false} NotItsOwnPart<S>(t: NTerm<S>, sym: S, nfs: seq<NTerm<S>>)
    requires nfs != [] && t == nfs[0]
    ensures t != Plain(sym, nfs)
  {
    assert nfs[0] < Plain(sym, nfs);
  }

  lemma PlacedPair<S(!new)>(th: Theory<S>, g: seq<Cell<S>>, canon: seq<Cell<S>>, f: seq<nat>, i: nat, j: nat)
    requires Placed(th, g, canon, f) && UnaryIdentities(th, g) && i < |g| && j < |g|
    ensures f[i] == f[j] <==> Form(th, g, i) == Form(th, g, j)
  {
    assert Form(th, canon, f[i]) == Form(th, g, i) && Form(th, canon, f[j]) == Form(th, g, j);
  }

  /** An identity operator over more than one input is joined to its first one wrongly. */
  lemma NonUnaryBreaks<S(!new)>(th: Theory<S>, g: seq<Cell<S>>, canon: seq<Cell<S>>, f: seq<nat>, i: nat) returns (x: nat)
    requires Placed(th, g, canon, f)
    requires i < |g| && th.identity(g[i].sym) && !th.symmetric(g[i].sym) && |g[i].inputs| != 1
    ensures g[i].inputs != [] && x == g[i].inputs[0] < |g|
    ensures f[i] == f[x] && Form(th, g, i) != Form(th, g, x)
  {
    assert FollowsInput(g, f, i);
    x := g[i].inputs[0];
    FormStep(th, g, i);
    NotItsOwnPart(Form(th, g, x), g[i].sym, Forms(th, g, g[i].inputs));
  }

  /** The renumbering joins exactly the provably equal pairs. */
  ghost predicate Decides<S(!new)>(th: Theory<S>, g: seq<Cell<S>>, f: seq<nat>)
    requires Topological(g) && |f| == |g|
  {
    forall i, j :: 0 <= i < |g| && 0 <= j < |g| ==> (f[i] == f[j] <==> Provable(th, Unfold(g, i), Unfold(g, j)))
  }

  /** One local pass decides the equational theory exactly when every identity operator is unary. */
  lemma PlacedDecides<S(!new)>(th: Theory<S>, g: seq<Cell<S>>, canon: seq<Cell<S>>, f: seq<nat>)
    requires Placed(th, g, canon, f)
    requires forall s :: !(th.identity(s) && th.symmetric(s))
    ensures Decides(th, g, f) <==> UnaryIdentities(th, g)
  {
    if UnaryIdentities(th, g) {
      forall i, j | 0 <= i < |g| && 0 <= j < |g|
        ensures f[i] == f[j] <==> Provable(th, Unfold(g, i), Unfold(g, j))
      {
        PlacedPair(th, g, canon, f, i, j);
        NormalFormDecides(th, Unfold(g, i), Unfold(g, j));
      }
    } else {
      var i :| 0 <= i < |g| && th.identity(g[i].sym) && |g[i].inputs| != 1;
      var x := NonUnaryBreaks(th, g, canon, f, i);
      NormalFormDecides(th, Unfold(g, i), Unfold(g, x));
      assert !(f[i] == f[x] <==> Provable(th, Unfold(g, i), Unfold(g, x)));
    }
  }

  /** A cell that is no identity is present in the canonical arena, as it is or swapped. */
  lemma PlacedCell<S>(th: Theory<S>, g: seq<Cell<S>>, canon: seq<Cell<S>>, f: seq<nat>, j: nat)
    requires Placed(th, g, canon, f) && SameForms(th, g, canon, f)
    requires j < |g| && !th.identity(g[j].sym)
    ensures AllBelow(g[j].inputs, j) && AllBelow(g[j].inputs, |f|) && f[j] < |canon|
    ensures var cell := Cell(g[j].sym, Renumber(f, g[j].inputs)); canon[f[j]] == cell || IsSwap(th, cell, canon[f[j]])
  {
    var xs := g[j].inputs;
    assert AllBelow(xs, j);
    RenumberedForms(th, g, canon, f, xs);
    FormStep(th, g, j);
    assert Form(th, canon, f[j]) == Form(th, g, j);
    PresentForm(th, canon, Cell(g[j].sym, Renumber(f, xs)), f[j]);
  }

  lemma FollowedInput<S>(th: Theory<S>, g: seq<Cell<S>>, f: seq<nat>, j: nat, k: nat)
    requires Topological(g) && |f| == |g| && UnaryIdentities(th, g)
    requires j < |g| && th.identity(g[j].sym) && FollowsInput(g, f, j) && k < |g[j].inputs|
    ensures g[j].inputs[k] < j && f[g[j].inputs[k]] == f[j]
  {
    assert AllBelow(g[j].inputs, j);
  }

  /** An edge of the recorded graph is an edge of the canonical one, or disappears with its identity. */
  lemma EdgeCarried<S>(th: Theory<S>, g: seq<Cell<S>>, canon: seq<Cell<S>>, f: seq<nat>, j: nat, k: nat)
    requires Placed(th, g, canon, f) && UnaryIdentities(th, g)
    requires j < |g| && k < |g[j].inputs|
    ensures g[j].inputs[k] < j
    ensures f[g[j].inputs[k]] == f[j] || f[g[j].inputs[k]] in canon[f[j]].inputs
  {
    var xs := g[j].inputs;
    assert AllBelow(xs, j);
    if th.identity(g[j].sym) {
      FollowedInput(th, g, f, j, k);
    } else {
      PlacedCell(th, g, canon, f, j);
      SwapMembers(th, Cell(g[j].sym, Renumber(f, xs)), canon[f[j]], k);
    }
  }

  lemma SwapMembers<S>(th: Theory<S>, a: Cell<S>, b: Cell<S>, k: nat)
    requires (b == a || IsSwap(th, a, b)) && k < |a.inputs|
    ensures a.inputs[k] in b.inputs
  {
    if IsSwap(th, a, b) {
      assert b.inputs[1 - k] == a.inputs[k];
    }
  }

  // ---- renaming symbols ----

  /** Two graphs of one shape whose symbols correspond one to one, rules included. */
  ghost predicate Renaming<S, T>(th: Theory<S>, g: seq<Cell<S>>, th': Theory<T>, g': seq<Cell<T>>) {
    && |g| == |g'|
    && (forall i {:trigger g[i]} {:trigger g'[i]} :: 0 <= i < |g| ==> SameShape(th, g[i], th', g'[i]))
    && (forall i, j :: 0 <= i < |g| && 0 <= j < |g| ==> (g[i].sym == g[j].sym <==> g'[i].sym == g'[j].sym))
  }

  ghost predicate SameShape<S, T>(th: Theory<S>, a: Cell<S>, th': Theory<T>, b: Cell<T>) {
    a.inputs == b.inputs && (th.symmetric(a.sym) <==> th'.symmetric(b.sym)) && (th.identity(a.sym) <==> th'.identity(b.sym))
  }

  ghost predicate SameForm<S>(th: Theory<S>, g: seq<Cell<S>>, i: nat, j: nat)
    requires Topological(g) && i < |g| && j < |g|
  {
    Form(th, g, i) == Form(th, g, j)
  }

  /** When two cells that are no unary identities have one form, in terms of their inputs only. */
  ghost predicate MatchingCells<S>(th: Theory<S>, g: seq<Cell<S>>, i: nat, j: nat)
    requires Topological(g) && i < |g| && j < |g|
  {
    var xs, ys := g[i].inputs, g[j].inputs;
    assert AllBelow(xs, i) && AllBelow(ys, j);
    && g[i].sym == g[j].sym && |xs| == |ys|
    && if th.symmetric(g[i].sym) && |xs| == 2
       then (SameForm(th, g, xs[0], ys[0]) && SameForm(th, g, xs[1], ys[1]))
         || (SameForm(th, g, xs[0], ys[1]) && SameForm(th, g, xs[1], ys[0]))
       else forall k :: 0 <= k < |xs| ==> SameForm(th, g, xs[k], ys[k])
  }

  ghost predicate UnaryIdentity<S>(th: Theory<S>, c: Cell<S>) {
    th.identity(c.sym) && |c.inputs| == 1
  }

  lemma SameFormMatches<S>(th: Theory<S>, g: seq<Cell<S>>, i: nat, j: nat)
    requires Topological(g) && i < |g| && j < |g|
    requires !UnaryIdentity(th, g[i]) && !UnaryIdentity(th, g[j]) && SameForm(th, g, i, j)
    ensures MatchingCells(th, g, i, j)
  {
    FormStep(th, g, i);
    FormStep(th, g, j);
    var us, vs := Forms(th, g, g[i].inputs), Forms(th, g, g[j].inputs);
    if th.symmetric(g[i].sym) && |us| == 2 {
      PairsEqual(us[0], us[1], vs[0], vs[1]);
    } else {
      assert us == vs;
    }
  }

  lemma MatchingSameForm<S>(th: Theory<S>, g: seq<Cell<S>>, i: nat, j: nat)
    requires Topological(g) && i < |g| && j < |g|
    requires !UnaryIdentity(th, g[i]) && !UnaryIdentity(th, g[j]) && MatchingCells(th, g, i, j)
    ensures SameForm(th, g, i, j)
  {
    FormStep(th, g, i);
    FormStep(th, g, j);
    var xs, ys := g[i].inputs, g[j].inputs;
    var us, vs := Forms(th, g, xs), Forms(th, g, ys);
    if th.symmetric(g[i].sym) && |xs| == 2 {
      assert multiset{us[0], us[1]} == multiset{us[1], us[0]};
    } else {
      assert forall k :: 0 <= k < |xs| ==> SameForm(th, g, xs[k], ys[k]);
      assert us == vs;
    }
  }

  lemma IdentityForm<S>(th: Theory<S>, g: seq<Cell<S>>, i: nat)
    requires Topological(g) && i < |g| && UnaryIdentity(th, g[i])
    ensures g[i].inputs[0] < i && Form(th, g, i) == Form(th, g, g[i].inputs[0])
  {
    FormStep(th, g, i);
  }

  /** Renaming the symbols joins the same positions. */
  lemma {:induction false} RenamedForms<S, T>(th: Theory<S>, g: seq<Cell<S>>, th': Theory<T>, g': seq<Cell<T>>, i: nat, j: nat)
    requires Topological(g) && Topological(g') && Renaming(th, g, th', g')
    requires i < |g| && j < |g|
    ensures SameForm(th, g, i, j) <==> SameForm(th', g', i, j)
    decreases i + j
  {
    assert SameShape(th, g[i], th', g'[i]) && SameShape(th, g[j], th', g'[j]);
    if UnaryIdentity(th, g[i]) {
      IdentityForm(th, g, i);
      IdentityForm(th', g', i);
      RenamedForms(th, g, th', g', g[i].inputs[0], j);
    } else if UnaryIdentity(th, g[j]) {
      IdentityForm(th, g, j);
      IdentityForm(th', g', j);
      RenamedForms(th, g, th', g', i, g[j].inputs[0]);
    } else {
      var xs, ys := g[i].inputs, g[j].inputs;
      assert AllBelow(xs, i) && AllBelow(ys, j);
      forall k, l | 0 <= k < |xs| && 0 <= l < |ys|
        ensures SameForm(th, g, xs[k], ys[l]) <==> SameForm(th', g', xs[k], ys[l])
      {
        RenamedForms(th, g, th', g', xs[k], ys[l]);
      }
      RenamedMatching(th, g, th', g', i, j);
    }
  }

  lemma RenamedMatching<S, T>(th: Theory<S>, g: seq<Cell<S>>, th': Theory<T>, g': seq<Cell<T>>, i: nat, j: nat)
    requires Topological(g) && Topological(g') && Renaming(th, g, th', g') && i < |g| && j < |g|
    requires !UnaryIdentity(th, g[i]) && !UnaryIdentity(th, g[j])
    requires !UnaryIdentity(th', g'[i]) && !UnaryIdentity(th', g'[j])
    requires AllBelow(g[i].inputs, i) && AllBelow(g[j].inputs, j)
    requires forall k, l :: 0 <= k < |g[i].inputs| && 0 <= l < |g[j].inputs| ==>
      (SameForm(th, g, g[i].inputs[k], g[j].inputs[l]) <==> SameForm(th', g', g[i].inputs[k], g[j].inputs[l]))
    ensures SameForm(th, g, i, j) <==> SameForm(th', g', i, j)
  {
    assert SameShape(th, g[i], th', g'[i]) && SameShape(th, g[j], th', g'[j]);
    assert MatchingCells(th, g, i, j) <==> MatchingCells(th', g', i, j);
    if SameForm(th, g, i, j) {
      SameFormMatches(th, g, i, j);
      MatchingSameForm(th', g', i, j);
    }
    if SameForm(th', g', i, j) {
      SameFormMatches(th', g', i, j);
      MatchingSameForm(th, g, i, j);
    }
  }

  /** A plain form starts with the symbol of some cell not later than the position. */
  lemma {:induction false} PlainComesFrom<S>(th: Theory<S>, g: seq<Cell<S>>, i: nat) returns (r: nat)
    requires Topological(g) && i < |g| && Form(th, g, i).Plain?
    ensures r <= i && g[r].sym == Form(th, g, i).sym
    decreases i
  {
    if UnaryIdentity(th, g[i]) {
      IdentityForm(th, g, i);
      r := PlainComesFrom(th, g, g[i].inputs[0]);
    } else {
      FormStep(th, g, i);
      r := i;
    }
  }
}
