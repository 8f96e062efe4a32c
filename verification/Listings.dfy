/** When two canonical graphs over the same classes are the same graph.

A listing of a graph keeps one member of every live class, in the order of the members it chose, with
inputs at the places of their classes.  Two listings that chose different members are compared by
what they chose. */
module Listings {
  import opened Selection
  import opened Terms
  import opened Cells
  import opened LocalCanon

  /** Two positions share a class exactly when they have one normal form. */
  ghost predicate ClassesAreForms<S>(th: Theory<S>, g: seq<Cell<S>>, f: seq<nat>)
    requires Topological(g)
  {
    |f| == |g| && forall i, j :: 0 <= i < |g| && 0 <= j < |g| ==> (f[i] == f[j] <==> SameForm(th, g, i, j))
  }

  /** A unary identity is in the class of its input. */
  lemma IdentityFollows<S>(th: Theory<S>, g: seq<Cell<S>>, f: seq<nat>, i: nat)
    requires Topological(g) && ClassesAreForms(th, g, f) && i < |g| && UnaryIdentity(th, g[i])
    ensures g[i].inputs[0] < i && f[g[i].inputs[0]] == f[i]
  {
    IdentityForm(th, g, i);
  }

  lemma FormClass<S>(th: Theory<S>, g: seq<Cell<S>>, f: seq<nat>, i: nat, j: nat)
    requires Topological(g) && ClassesAreForms(th, g, f) && i < |g| && j < |g|
    ensures f[i] == f[j] <==> SameForm(th, g, i, j)
  {
  }

  lemma MatchedOperand<S>(th: Theory<S>, g: seq<Cell<S>>, f: seq<nat>, l: nat, m: nat, k: nat) returns (k': nat)
    requires Topological(g) && ClassesAreForms(th, g, f)
    requires l < |g| && m < |g| && MatchingCells(th, g, l, m) && k < |g[m].inputs|
    ensures k' < |g[l].inputs| && g[l].inputs[k'] < l && g[m].inputs[k] < m && f[g[l].inputs[k']] == f[g[m].inputs[k]]
  {
    var xs, ys := g[l].inputs, g[m].inputs;
    assert AllBelow(xs, l) && AllBelow(ys, m) && |xs| == |ys|;
    FormClass(th, g, f, xs[k], ys[k]);
    k' := k;
    if f[xs[k]] != f[ys[k]] {
      if k == 0 {
        FormClass(th, g, f, xs[1], ys[0]);
        assert f[xs[1]] == f[ys[0]];
        k' := 1;
      } else {
        FormClass(th, g, f, xs[0], ys[1]);
        assert k == 1;
        assert f[xs[0]] == f[ys[1]];
        k' := 0;
      }
    }
  }

  /** Members of one class other than identities have operands of the same classes. */
  lemma OperandMatched<S>(th: Theory<S>, g: seq<Cell<S>>, f: seq<nat>, l: nat, m: nat, k: nat) returns (k': nat)
    requires Topological(g) && ClassesAreForms(th, g, f) && l < |g| && m < |g| && f[l] == f[m]
    requires !UnaryIdentity(th, g[l]) && !UnaryIdentity(th, g[m]) && k < |g[m].inputs|
    ensures k' < |g[l].inputs| && g[l].inputs[k'] < l && g[m].inputs[k] < m && f[g[l].inputs[k']] == f[g[m].inputs[k]]
  {
    FormClass(th, g, f, l, m);
    SameFormMatches(th, g, l, m);
    k' := MatchedOperand(th, g, f, l, m, k);
  }

  /** The chosen member of a live class: one of its positions, no identity, over live inputs. */
  ghost predicate Chosen<S>(th: Theory<S>, g: seq<Cell<S>>, f: seq<nat>, live: seq<bool>, i: nat, l: nat)
    requires |f| == |live| == |g| && i < |g|
  {
    && l < |g| && live[l] && f[l] == f[i] && !UnaryIdentity(th, g[l])
    && forall k :: 0 <= k < |g[l].inputs| ==> g[l].inputs[k] < |g| && live[g[l].inputs[k]]
  }

  ghost predicate Chooses<S>(th: Theory<S>, g: seq<Cell<S>>, f: seq<nat>, live: seq<bool>, first: seq<nat>) {
    && |f| == |live| == |first| == |g|
    && (forall i {:trigger first[i]} :: 0 <= i < |g| && live[i] ==> Chosen(th, g, f, live, i, first[i]))
    && forall i, j :: 0 <= i < |g| && 0 <= j < |g| && live[i] && live[j] && f[i] == f[j] ==> first[i] == first[j]
  }

  /** Places below `n` in the order of the choices, all of them taken. */
  ghost predicate InOrder(live: seq<bool>, first: seq<nat>, place: seq<nat>, n: nat) {
    && |live| == |first| == |place|
    && (forall i {:trigger place[i]} :: 0 <= i < |live| && live[i] ==> place[i] < n)
    && (forall i, j :: 0 <= i < |live| && 0 <= j < |live| && live[i] && live[j] ==>
          (place[i] < place[j] <==> first[i] < first[j]))
    && forall p: nat :: p < n ==> Taken(live, place, p)
  }

  ghost predicate Taken(live: seq<bool>, place: seq<nat>, p: nat)
    requires |place| == |live|
  {
    exists i :: 0 <= i < |live| && live[i] && place[i] == p
  }

  lemma OrderOf(live: seq<bool>, first: seq<nat>, place: seq<nat>, n: nat, i: nat, j: nat)
    requires InOrder(live, first, place, n) && i < |live| && j < |live| && live[i] && live[j]
    ensures place[i] < place[j] <==> first[i] < first[j]
  {
  }

  ghost function Occupant(live: seq<bool>, place: seq<nat>, p: nat): (i: nat)
    requires |place| == |live| && Taken(live, place, p)
    ensures i < |live| && live[i] && place[i] == p
  {
    var i :| 0 <= i < |live| && live[i] && place[i] == p;
    i
  }

  ghost predicate Copied<S>(g: seq<Cell<S>>, place: seq<nat>, l: nat, cell: Cell<S>)
    requires |place| == |g| && l < |g|
  {
    AllBelow(g[l].inputs, |place|) && cell == Cell(g[l].sym, Renumber(place, g[l].inputs))
  }

  ghost predicate Lists<S>(th: Theory<S>, g: seq<Cell<S>>, f: seq<nat>, live: seq<bool>,
                           first: seq<nat>, place: seq<nat>, h: seq<Cell<S>>) {
    && Topological(g) && Topological(h) && ClassesAreForms(th, g, f)
    && Chooses(th, g, f, live, first) && InOrder(live, first, place, |h|)
    && forall i {:trigger place[i]} :: 0 <= i < |g| && live[i] ==> Copied(g, place, first[i], h[place[i]])
  }

  // ---- agreeing choices ----

  ghost predicate SameOrder(live: seq<bool>, first: seq<nat>, first': seq<nat>)
    requires |first| == |first'| == |live|
  {
    forall i, j :: 0 <= i < |live| && 0 <= j < |live| && live[i] && live[j] ==>
      (first[i] < first[j] <==> first'[i] < first'[j])
  }

  /** The inputs of two positions are of the same classes, in the same order. */
  ghost predicate SameOperands<S>(g: seq<Cell<S>>, f: seq<nat>, l: nat, m: nat)
    requires |f| == |g| && l < |g| && m < |g|
  {
    && AllBelow(g[l].inputs, |f|) && AllBelow(g[m].inputs, |f|)
    && Renumber(f, g[l].inputs) == Renumber(f, g[m].inputs)
  }

  ghost predicate ChoicesAgree<S>(g: seq<Cell<S>>, f: seq<nat>, live: seq<bool>, first: seq<nat>, first': seq<nat>)
    requires |f| == |live| == |first| == |first'| == |g|
  {
    && SameOrder(live, first, first')
    && forall i {:trigger first[i]} :: 0 <= i < |g| && live[i] ==>
         first[i] < |g| && first'[i] < |g| && SameOperands(g, f, first[i], first'[i])
  }

  /** Positions with one place share a class. */
  lemma SamePlace<S>(th: Theory<S>, g: seq<Cell<S>>, f: seq<nat>, live: seq<bool>,
                     first: seq<nat>, place: seq<nat>, n: nat, i: nat, j: nat)
    requires Chooses(th, g, f, live, first) && InOrder(live, first, place, n)
    requires i < |g| && j < |g| && live[i] && live[j]
    ensures place[i] == place[j] <==> f[i] == f[j]
  {
    assert Chosen(th, g, f, live, i, first[i]) && Chosen(th, g, f, live, j, first[j]);
  }

  /** Choices in one order put every class at one place. */
  lemma {:induction false} OrderGivesPlaces(live: seq<bool>, first: seq<nat>, place: seq<nat>, n: nat,
                                            first': seq<nat>, place': seq<nat>, n': nat, i: nat)
    requires InOrder(live, first, place, n) && InOrder(live, first', place', n') && SameOrder(live, first, first')
    requires i < |live| && live[i]
    ensures place[i] == place'[i]
    decreases place[i]
  {
    if place'[i] < place[i] {
      assert Taken(live, place, place'[i]);
      var j := Occupant(live, place, place'[i]);
      OrderGivesPlaces(live, first, place, n, first', place', n', j);
    } else if place[i] < place'[i] {
      assert Taken(live, place', place[i]);
      var j := Occupant(live, place', place[i]);
      assert first'[j] < first'[i];
      OrderGivesPlaces(live, first, place, n, first', place', n', j);
    }
  }

  lemma OrderGivesLength(live: seq<bool>, first: seq<nat>, place: seq<nat>, n: nat, first': seq<nat>, place': seq<nat>, n': nat)
    requires InOrder(live, first, place, n) && InOrder(live, first', place', n') && SameOrder(live, first, first')
    ensures n <= n'
  {
    if n' < n {
      assert Taken(live, place, n');
      var i := Occupant(live, place, n');
      OrderGivesPlaces(live, first, place, n, first', place', n', i);
    }
  }

  lemma OperandPlaces<S>(th: Theory<S>, g: seq<Cell<S>>, f: seq<nat>, live: seq<bool>, first: seq<nat>, place: seq<nat>,
                         n: nat, place': seq<nat>, l: nat, m: nat)
    requires Chooses(th, g, f, live, first) && InOrder(live, first, place, n) && |place'| == |g|
    requires forall j :: 0 <= j < |g| && live[j] ==> place[j] == place'[j]
    requires l < |g| && m < |g| && Chosen(th, g, f, live, l, l) && Chosen(th, g, f, live, m, m) && SameOperands(g, f, l, m)
    ensures AllBelow(g[l].inputs, |place|) && AllBelow(g[m].inputs, |place'|)
    ensures Renumber(place, g[l].inputs) == Renumber(place', g[m].inputs)
  {
    var xs, ys := g[l].inputs, g[m].inputs;
    assert |Renumber(f, xs)| == |xs| && |Renumber(f, ys)| == |ys|;
    forall k | 0 <= k < |xs|
      ensures place[xs[k]] == place'[ys[k]]
    {
      assert f[xs[k]] == Renumber(f, xs)[k] == Renumber(f, ys)[k] == f[ys[k]];
      SamePlace(th, g, f, live, first, place, n, xs[k], ys[k]);
    }
  }

  /** Members of one class over operands of the same classes are copied alike. */
  lemma CopiedAlike<S>(th: Theory<S>, g: seq<Cell<S>>, f: seq<nat>, live: seq<bool>, first: seq<nat>, place: seq<nat>,
                       h: seq<Cell<S>>, first': seq<nat>, place': seq<nat>, h': seq<Cell<S>>, i: nat)
    requires Lists(th, g, f, live, first, place, h) && Lists(th, g, f, live, first', place', h')
    requires forall j :: 0 <= j < |g| && live[j] ==> place[j] == place'[j]
    requires i < |g| && live[i] && first[i] < |g| && first'[i] < |g| && SameOperands(g, f, first[i], first'[i])
    ensures place[i] < |h| && place[i] < |h'| && h[place[i]] == h'[place[i]]
  {
    var l, m := first[i], first'[i];
    assert Chosen(th, g, f, live, i, l) && Chosen(th, g, f, live, i, m);
    FormClass(th, g, f, l, m);
    SameFormMatches(th, g, l, m);
    OperandPlaces(th, g, f, live, first, place, |h|, place', l, m);
    assert Copied(g, place, l, h[place[i]]) && Copied(g, place', m, h'[place'[i]]);
  }

  lemma AgreeingListings<S>(th: Theory<S>, g: seq<Cell<S>>, f: seq<nat>, live: seq<bool>, first: seq<nat>, place: seq<nat>,
                            h: seq<Cell<S>>, first': seq<nat>, place': seq<nat>, h': seq<Cell<S>>)
    requires Lists(th, g, f, live, first, place, h) && Lists(th, g, f, live, first', place', h')
    requires ChoicesAgree(g, f, live, first, first')
    ensures h == h' && forall i :: 0 <= i < |g| && live[i] ==> place[i] == place'[i]
  {
    forall i | 0 <= i < |g| && live[i]
      ensures place[i] == place'[i]
    {
      OrderGivesPlaces(live, first, place, |h|, first', place', |h'|, i);
    }
    OrderGivesLength(live, first, place, |h|, first', place', |h'|);
    OrderGivesLength(live, first', place', |h'|, first, place, |h|);
    forall p: nat | p < |h|
      ensures h[p] == h'[p]
    {
      assert Taken(live, place, p);
      var i := Occupant(live, place, p);
      assert SameOperands(g, f, first[i], first'[i]);
      CopiedAlike(th, g, f, live, first, place, h, first', place', h', i);
    }
  }

  // ---- agreeing listings ----

  /** What is copied to one place of one graph has inputs at the same places. */
  lemma CopiedTogether<S>(g: seq<Cell<S>>, place: seq<nat>, l: nat, place': seq<nat>, m: nat, cell: Cell<S>)
    requires |place| == |place'| == |g| && l < |g| && m < |g|
    requires Copied(g, place, l, cell) && Copied(g, place', m, cell)
    ensures g[l].sym == g[m].sym && |g[l].inputs| == |g[m].inputs| == |cell.inputs|
    ensures AllBelow(g[l].inputs, |g|) && AllBelow(g[m].inputs, |g|)
    ensures forall k :: 0 <= k < |cell.inputs| ==> cell.inputs[k] == place[g[l].inputs[k]] == place'[g[m].inputs[k]]
  {
  }

  /** In equal listings every class is at one place. */
  lemma {:induction false} GraphGivesPlaces<S>(th: Theory<S>, g: seq<Cell<S>>, f: seq<nat>, live: seq<bool>,
      first: seq<nat>, place: seq<nat>, first': seq<nat>, place': seq<nat>, h: seq<Cell<S>>, i: nat)
    requires Lists(th, g, f, live, first, place, h) && Lists(th, g, f, live, first', place', h)
    requires i < |g| && live[i]
    ensures place[i] == place'[i]
    decreases place[i]
  {
    assert Taken(live, place', place[i]);
    var j := Occupant(live, place', place[i]);
    var l, m := first[i], first'[j];
    assert Chosen(th, g, f, live, i, l) && Chosen(th, g, f, live, j, m);
    assert Copied(g, place, l, h[place[i]]) && Copied(g, place', m, h[place'[j]]);
    CopiedTogether(g, place, l, place', m, h[place[i]]);
    var xs, ys := g[l].inputs, g[m].inputs;
    forall k | 0 <= k < |xs|
      ensures SameForm(th, g, xs[k], ys[k])
    {
      assert h[place[i]].inputs[k] < place[i];
      GraphGivesPlaces(th, g, f, live, first, place, first', place', h, xs[k]);
      SamePlace(th, g, f, live, first', place', |h|, xs[k], ys[k]);
    }
    assert MatchingCells(th, g, l, m);
    MatchingSameForm(th, g, l, m);
    SamePlace(th, g, f, live, first', place', |h|, i, j);
  }

  lemma EqualListings<S>(th: Theory<S>, g: seq<Cell<S>>, f: seq<nat>, live: seq<bool>,
      first: seq<nat>, place: seq<nat>, first': seq<nat>, place': seq<nat>, h: seq<Cell<S>>)
    requires Lists(th, g, f, live, first, place, h) && Lists(th, g, f, live, first', place', h)
    ensures ChoicesAgree(g, f, live, first, first')
  {
    forall i | 0 <= i < |g| && live[i]
      ensures place[i] == place'[i]
    {
      GraphGivesPlaces(th, g, f, live, first, place, first', place', h, i);
    }
    forall i | 0 <= i < |g| && live[i]
      ensures first[i] < |g| && first'[i] < |g| && SameOperands(g, f, first[i], first'[i])
    {
      var l, m := first[i], first'[i];
      assert Chosen(th, g, f, live, i, l) && Chosen(th, g, f, live, i, m);
      assert Copied(g, place, l, h[place[i]]) && Copied(g, place', m, h[place'[i]]);
      CopiedTogether(g, place, l, place', m, h[place[i]]);
      var xs, ys := g[l].inputs, g[m].inputs;
      forall k | 0 <= k < |xs|
        ensures f[xs[k]] == f[ys[k]]
      {
        SamePlace(th, g, f, live, first, place, |h|, xs[k], ys[k]);
      }
    }
  }

  /** Two listings are one graph exactly when their choices agree in order and in operands. */
  lemma ListingsEqual<S>(th: Theory<S>, g: seq<Cell<S>>, f: seq<nat>, live: seq<bool>, first: seq<nat>, place: seq<nat>,
                         h: seq<Cell<S>>, first': seq<nat>, place': seq<nat>, h': seq<Cell<S>>)
    requires Lists(th, g, f, live, first, place, h) && Lists(th, g, f, live, first', place', h')
    ensures h == h' <==> ChoicesAgree(g, f, live, first, first')
    ensures h == h' ==> forall i :: 0 <= i < |g| && live[i] ==> place[i] == place'[i]
  {
    if h == h' {
      EqualListings(th, g, f, live, first, place, first', place', h);
    }
    if ChoicesAgree(g, f, live, first, first') {
      AgreeingListings(th, g, f, live, first, place, h, first', place', h');
    }
  }

  // ---- two listings are reorderings of each other ----

  /** A listed class has its form. */
  lemma {:induction false} ListedForm<S>(th: Theory<S>, g: seq<Cell<S>>, f: seq<nat>, live: seq<bool>,
                                         first: seq<nat>, place: seq<nat>, h: seq<Cell<S>>, i: nat)
    requires Lists(th, g, f, live, first, place, h) && i < |g| && live[i]
    ensures place[i] < |h| && Form(th, h, place[i]) == Form(th, g, i)
    decreases place[i]
  {
    var l := first[i];
    assert Chosen(th, g, f, live, i, l) && Copied(g, place, l, h[place[i]]);
    var xs, ys := g[l].inputs, h[place[i]].inputs;
    FormStep(th, g, l);
    FormStep(th, h, place[i]);
    forall k | 0 <= k < |xs|
      ensures Form(th, h, ys[k]) == Form(th, g, xs[k])
    {
      assert ys[k] == place[xs[k]] < place[i];
      ListedForm(th, g, f, live, first, place, h, xs[k]);
    }
    assert Forms(th, h, ys) == Forms(th, g, xs);
    FormClass(th, g, f, l, i);
  }

  /** Where the class at each place of one listing is in another. */
  ghost function Moves(live: seq<bool>, place: seq<nat>, place': seq<nat>, n: nat): (r: seq<nat>)
    requires |live| == |place| == |place'| && forall p: nat :: p < n ==> Taken(live, place, p)
    ensures |r| == n
    ensures forall p {:trigger r[p]} :: 0 <= p < n ==> r[p] == place'[Occupant(live, place, p)]
  {
    seq(n, p requires 0 <= p < n => place'[Occupant(live, place, p)])
  }

  lemma MovesAt<S>(th: Theory<S>, g: seq<Cell<S>>, f: seq<nat>, live: seq<bool>, first: seq<nat>, place: seq<nat>, n: nat,
                   first': seq<nat>, place': seq<nat>, n': nat, i: nat)
    requires Chooses(th, g, f, live, first) && InOrder(live, first, place, n)
    requires Chooses(th, g, f, live, first') && InOrder(live, first', place', n')
    requires i < |g| && live[i]
    ensures place[i] < n && Moves(live, place, place', n)[place[i]] == place'[i]
  {
    assert Taken(live, place, place[i]);
    var j := Occupant(live, place, place[i]);
    SamePlace(th, g, f, live, first, place, n, i, j);
    SamePlace(th, g, f, live, first', place', n', i, j);
  }

  /** The same operands, possibly the other way round if there are two. */
  ghost predicate SamePair(xs: seq<nat>, ys: seq<nat>) {
    xs == ys || (|xs| == |ys| == 2 && ys == [xs[1], xs[0]])
  }

  /** Members of one class other than identities have the same classes of operands, either way round. */
  lemma OperandClasses<S>(th: Theory<S>, g: seq<Cell<S>>, f: seq<nat>, l: nat, m: nat)
    requires Topological(g) && ClassesAreForms(th, g, f) && l < |g| && m < |g| && f[l] == f[m]
    requires !UnaryIdentity(th, g[l]) && !UnaryIdentity(th, g[m])
    ensures g[l].sym == g[m].sym && AllBelow(g[l].inputs, |f|) && AllBelow(g[m].inputs, |f|)
    ensures SamePair(Renumber(f, g[l].inputs), Renumber(f, g[m].inputs))
  {
    FormClass(th, g, f, l, m);
    SameFormMatches(th, g, l, m);
    MatchedClasses(th, g, f, l, m);
  }

  lemma MatchedClasses<S>(th: Theory<S>, g: seq<Cell<S>>, f: seq<nat>, l: nat, m: nat)
    requires Topological(g) && ClassesAreForms(th, g, f) && l < |g| && m < |g| && MatchingCells(th, g, l, m)
    ensures AllBelow(g[l].inputs, |f|) && AllBelow(g[m].inputs, |f|)
    ensures SamePair(Renumber(f, g[l].inputs), Renumber(f, g[m].inputs))
  {
    var xs, ys := g[l].inputs, g[m].inputs;
    assert AllBelow(xs, l) && AllBelow(ys, m) && |xs| == |ys|;
    if th.symmetric(g[l].sym) && |xs| == 2 {
      FormClass(th, g, f, xs[0], ys[0]);
      FormClass(th, g, f, xs[1], ys[1]);
      FormClass(th, g, f, xs[0], ys[1]);
      FormClass(th, g, f, xs[1], ys[0]);
      PairClasses(f, xs, ys);
    } else {
      forall k | 0 <= k < |xs|
        ensures f[xs[k]] == f[ys[k]]
      {
        FormClass(th, g, f, xs[k], ys[k]);
      }
      assert Renumber(f, xs) == Renumber(f, ys);
    }
  }

  lemma PairClasses(f: seq<nat>, xs: seq<nat>, ys: seq<nat>)
    requires AllBelow(xs, |f|) && AllBelow(ys, |f|) && |xs| == |ys| == 2
    requires (f[xs[0]] == f[ys[0]] && f[xs[1]] == f[ys[1]]) || (f[xs[0]] == f[ys[1]] && f[xs[1]] == f[ys[0]])
    ensures SamePair(Renumber(f, xs), Renumber(f, ys))
  {
    if f[xs[0]] == f[ys[0]] && f[xs[1]] == f[ys[1]] {
      assert Renumber(f, xs) == Renumber(f, ys);
    } else {
      assert Renumber(f, ys) == [Renumber(f, xs)[1], Renumber(f, xs)[0]];
    }
  }

  lemma PairMoved(f: seq<nat>, place': seq<nat>, moves: seq<nat>, place: seq<nat>, xs: seq<nat>, ys: seq<nat>)
    requires |f| == |place| == |place'| && AllBelow(xs, |f|) && AllBelow(ys, |f|)
    requires SamePair(Renumber(f, xs), Renumber(f, ys))
    requires forall k, l :: 0 <= k < |xs| && 0 <= l < |ys| && f[xs[k]] == f[ys[l]] ==> place'[xs[k]] == place'[ys[l]]
    requires forall k :: 0 <= k < |xs| ==> place[xs[k]] < |moves| && moves[place[xs[k]]] == place'[xs[k]]
    ensures AllBelow(Renumber(place, xs), |moves|)
    ensures SamePair(Renumber(moves, Renumber(place, xs)), Renumber(place', ys))
  {
    assert |xs| == |Renumber(f, xs)| == |Renumber(f, ys)| == |ys|;
    var moved, there := Renumber(moves, Renumber(place, xs)), Renumber(place', ys);
    if Renumber(f, xs) == Renumber(f, ys) {
      forall k | 0 <= k < |xs|
        ensures moved[k] == there[k]
      {
        assert f[xs[k]] == Renumber(f, xs)[k] == Renumber(f, ys)[k] == f[ys[k]];
      }
    } else {
      assert f[xs[0]] == Renumber(f, xs)[0] == Renumber(f, ys)[1] == f[ys[1]];
      assert f[xs[1]] == Renumber(f, xs)[1] == Renumber(f, ys)[0] == f[ys[0]];
      assert there == [moved[1], moved[0]];
    }
  }

  /** What is at a place of one listing is at the place of its class in the other, up to swapped operands. */
  lemma ListedMoved<S>(th: Theory<S>, g: seq<Cell<S>>, f: seq<nat>, live: seq<bool>, first: seq<nat>, place: seq<nat>,
                       h: seq<Cell<S>>, first': seq<nat>, place': seq<nat>, h': seq<Cell<S>>, i: nat)
    requires Lists(th, g, f, live, first, place, h) && Lists(th, g, f, live, first', place', h')
    requires i < |g| && live[i]
    ensures place[i] < |h| && place'[i] < |h'|
    ensures var a, b, moves := h[place[i]], h'[place'[i]], Moves(live, place, place', |h|);
      a.sym == b.sym && AllBelow(a.inputs, |moves|) && SamePair(Renumber(moves, a.inputs), b.inputs)
  {
    var l, m := first[i], first'[i];
    assert Chosen(th, g, f, live, i, l) && Chosen(th, g, f, live, i, m);
    OperandClasses(th, g, f, l, m);
    assert Copied(g, place, l, h[place[i]]) && Copied(g, place', m, h'[place'[i]]);
    var xs, ys, moves := g[l].inputs, g[m].inputs, Moves(live, place, place', |h|);
    forall k | 0 <= k < |xs|
      ensures place[xs[k]] < |moves| && moves[place[xs[k]]] == place'[xs[k]]
    {
      MovesAt(th, g, f, live, first, place, |h|, first', place', |h'|, xs[k]);
    }
    forall k, n | 0 <= k < |xs| && 0 <= n < |ys| && f[xs[k]] == f[ys[n]]
      ensures place'[xs[k]] == place'[ys[n]]
    {
      SamePlace(th, g, f, live, first', place', |h'|, xs[k], ys[n]);
    }
    PairMoved(f, place', moves, place, xs, ys);
  }

  /** Operands are moved along exactly when the members listed have the same operands. */
  lemma ListedOperands<S>(th: Theory<S>, g: seq<Cell<S>>, f: seq<nat>, live: seq<bool>, first: seq<nat>, place: seq<nat>,
                          h: seq<Cell<S>>, first': seq<nat>, place': seq<nat>, h': seq<Cell<S>>, i: nat)
    requires Lists(th, g, f, live, first, place, h) && Lists(th, g, f, live, first', place', h')
    requires i < |g| && live[i] && first[i] < |g| && first'[i] < |g| && place[i] < |h| && place'[i] < |h'|
    ensures var a, b, moves := h[place[i]], h'[place'[i]], Moves(live, place, place', |h|);
      AllBelow(a.inputs, |moves|) && (b.inputs == Renumber(moves, a.inputs) <==> SameOperands(g, f, first[i], first'[i]))
  {
    var l, m := first[i], first'[i];
    assert Chosen(th, g, f, live, i, l) && Chosen(th, g, f, live, i, m);
    OperandClasses(th, g, f, l, m);
    assert Copied(g, place, l, h[place[i]]) && Copied(g, place', m, h'[place'[i]]);
    var xs, ys, moves := g[l].inputs, g[m].inputs, Moves(live, place, place', |h|);
    assert |xs| == |Renumber(f, xs)| == |Renumber(f, ys)| == |ys|;
    forall k | 0 <= k < |xs|
      ensures place[xs[k]] < |moves| && moves[place[xs[k]]] == place'[xs[k]]
      ensures place'[xs[k]] == place'[ys[k]] <==> f[xs[k]] == f[ys[k]]
    {
      MovesAt(th, g, f, live, first, place, |h|, first', place', |h'|, xs[k]);
      SamePlace(th, g, f, live, first', place', |h'|, xs[k], ys[k]);
    }
    SameAtAll(Renumber(place', ys), Renumber(moves, Renumber(place, xs)), Renumber(f, xs), Renumber(f, ys));
  }

  lemma SameAtAll(a: seq<nat>, b: seq<nat>, c: seq<nat>, d: seq<nat>)
    requires |a| == |b| == |c| == |d| && forall k :: 0 <= k < |a| ==> (a[k] == b[k] <==> c[k] == d[k])
    ensures a == b <==> c == d
  {
  }

  lemma MovesBijective<S>(th: Theory<S>, g: seq<Cell<S>>, f: seq<nat>, live: seq<bool>, first: seq<nat>, place: seq<nat>, n: nat,
                          first': seq<nat>, place': seq<nat>, n': nat)
    requires Chooses(th, g, f, live, first) && InOrder(live, first, place, n)
    requires Chooses(th, g, f, live, first') && InOrder(live, first', place', n')
    ensures var moves := Moves(live, place, place', n);
      && AllBelow(moves, n') && (forall q: nat :: q < n' ==> q in moves)
      && forall p, q :: 0 <= p < n && 0 <= q < n && moves[p] == moves[q] ==> p == q
  {
    var moves := Moves(live, place, place', n);
    forall q: nat | q < n'
      ensures q in moves
    {
      assert Taken(live, place', q);
      var i := Occupant(live, place', q);
      MovesAt(th, g, f, live, first, place, n, first', place', n', i);
    }
    forall p, q | 0 <= p < n && 0 <= q < n && moves[p] == moves[q]
      ensures p == q
    {
      var i, j := Occupant(live, place, p), Occupant(live, place, q);
      SamePlace(th, g, f, live, first', place', n', i, j);
      SamePlace(th, g, f, live, first, place, n, i, j);
    }
  }
}
