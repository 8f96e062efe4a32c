/** Stable sorting by a total preorder. */
module Sorting {

  ghost predicate TotalPreorder<T(!new)>(le: (T, T) -> bool) {
    && (forall a, b :: le(a, b) || le(b, a))
    && (forall a, b, c :: le(a, b) && le(b, c) ==> le(a, c))
  }

  ghost predicate Ordered<T>(le: (T, T) -> bool, xs: seq<T>) {
    forall i, j :: 0 <= i < j < |xs| ==> le(xs[i], xs[j])
  }

  /** Put `x` after every element that is not greater: equal elements keep their order. */
  function Insert<T>(le: (T, T) -> bool, xs: seq<T>, x: T): seq<T> {
    if xs == [] then [x]
    else if le(xs[|xs| - 1], x) then xs + [x]
    else Insert(le, xs[..|xs| - 1], x) + [xs[|xs| - 1]]
  }

  function Sort<T>(le: (T, T) -> bool, xs: seq<T>): (ys: seq<T>)
    ensures |ys| == |xs|
  {
    SortLength(le, xs);
    SortFrom(le, xs)
  }

  function SortFrom<T>(le: (T, T) -> bool, xs: seq<T>): seq<T> {
    if xs == [] then [] else Insert(le, SortFrom(le, xs[..|xs| - 1]), xs[|xs| - 1])
  }

  lemma {:induction false} InsertLength<T>(le: (T, T) -> bool, xs: seq<T>, x: T)
    ensures |Insert(le, xs, x)| == |xs| + 1
  {
    if xs != [] {
      InsertLength(le, xs[..|xs| - 1], x);
    }
  }

  lemma {:induction false} SortLength<T>(le: (T, T) -> bool, xs: seq<T>)
    ensures |SortFrom(le, xs)| == |xs|
  {
    if xs != [] {
      SortLength(le, xs[..|xs| - 1]);
      InsertLength(le, SortFrom(le, xs[..|xs| - 1]), xs[|xs| - 1]);
    }
  }

  lemma OrderedSnoc<T>(le: (T, T) -> bool, xs: seq<T>, x: T)
    requires Ordered(le, xs) && forall i :: 0 <= i < |xs| ==> le(xs[i], x)
    ensures Ordered(le, xs + [x])
  {
  }

  lemma {:induction false} InsertSorts<T(!new)>(le: (T, T) -> bool, xs: seq<T>, x: T)
    requires TotalPreorder(le) && Ordered(le, xs)
    ensures Ordered(le, Insert(le, xs, x))
    ensures multiset(Insert(le, xs, x)) == multiset(xs) + multiset{x}
  {
    if xs != [] {
      var init, last := xs[..|xs| - 1], xs[|xs| - 1];
      assert xs == init + [last];
      if le(last, x) {
        forall i | 0 <= i < |xs|
          ensures le(xs[i], x)
        {
          assert i < |init| ==> le(xs[i], last);
        }
        OrderedSnoc(le, xs, x);
      } else {
        InsertSorts(le, init, x);
        var r := Insert(le, init, x);
        forall i | 0 <= i < |r|
          ensures le(r[i], last)
        {
          assert r[i] in multiset(r);
          BelowLast(le, init, x, last, r[i]);
        }
        OrderedSnoc(le, r, last);
      }
    }
  }

  lemma BelowLast<T>(le: (T, T) -> bool, init: seq<T>, x: T, last: T, y: T)
    requires Ordered(le, init + [last]) && le(x, last) && y in multiset(init) + multiset{x}
    ensures le(y, last)
  {
    if y != x {
      var k :| 0 <= k < |init| && init[k] == y;
      assert (init + [last])[k] == y && (init + [last])[|init|] == last;
    }
  }

  /** Sorting gives an ordered permutation. */
  lemma {:induction false} SortSorts<T(!new)>(le: (T, T) -> bool, xs: seq<T>)
    requires TotalPreorder(le)
    ensures Ordered(le, Sort(le, xs))
    ensures multiset(Sort(le, xs)) == multiset(xs)
  {
    if xs != [] {
      SortSorts(le, xs[..|xs| - 1]);
      InsertSorts(le, SortFrom(le, xs[..|xs| - 1]), xs[|xs| - 1]);
      assert xs == xs[..|xs| - 1] + [xs[|xs| - 1]];
    }
  }

  /** Ordered input comes back unchanged, equal elements included. */
  lemma {:induction false} SortOrdered<T>(le: (T, T) -> bool, xs: seq<T>)
    requires Ordered(le, xs)
    ensures Sort(le, xs) == xs
  {
    if xs != [] {
      var init := xs[..|xs| - 1];
      assert forall i :: 0 <= i < |init| ==> init[i] == xs[i];
      SortOrdered(le, init);
      assert init != [] ==> le(xs[|xs| - 2], xs[|xs| - 1]);
    }
  }

  /** No two different positions are equal in the order. */
  ghost predicate Strict<T>(le: (T, T) -> bool, xs: seq<T>) {
    forall i, j :: 0 <= i < j < |xs| ==> !le(xs[j], xs[i])
  }

  lemma LastSame<T>(le: (T, T) -> bool, xs: seq<T>, ys: seq<T>, n: nat)
    requires n > 0 && |xs| == |ys| == n && multiset(xs) == multiset(ys)
    requires Ordered(le, xs) && Strict(le, ys)
    ensures xs[n - 1] == ys[n - 1]
  {
    var a, b := xs[n - 1], ys[n - 1];
    assert a in multiset(ys) && b in multiset(xs);
    var i :| 0 <= i < n && ys[i] == a;
    var j :| 0 <= j < n && xs[j] == b;
    assert i < n - 1 ==> !le(b, a);
    assert j < n - 1 ==> le(b, a);
  }

  ghost predicate StrictlyOrdered<T>(le: (T, T) -> bool, xs: seq<T>) {
    Ordered(le, xs) && Strict(le, xs)
  }

  lemma StrictPrefix<T>(le: (T, T) -> bool, xs: seq<T>, n: nat)
    requires StrictlyOrdered(le, xs) && n <= |xs|
    ensures StrictlyOrdered(le, xs[..n])
  {
    assert forall i :: 0 <= i < n ==> xs[..n][i] == xs[i];
  }

  lemma DropLast<T>(xs: seq<T>, n: nat)
    requires n > 0 && |xs| == n
    ensures multiset(xs[..n - 1]) == multiset(xs) - multiset{xs[n - 1]} && xs == xs[..n - 1] + [xs[n - 1]]
  {
    assert xs == xs[..n - 1] + [xs[n - 1]];
  }

  /** There is only one strictly ordered arrangement of the same elements. */
  lemma {:induction false} StrictUnique<T>(le: (T, T) -> bool, xs: seq<T>, ys: seq<T>)
    requires multiset(xs) == multiset(ys) && StrictlyOrdered(le, xs) && StrictlyOrdered(le, ys)
    ensures xs == ys
    decreases |xs|
  {
    var n := |xs|;
    assert |multiset(xs)| == n && |multiset(ys)| == |ys|;
    if n > 0 {
      LastSame(le, xs, ys, n);
      DropLast(xs, n);
      DropLast(ys, n);
      StrictPrefix(le, xs, n - 1);
      StrictPrefix(le, ys, n - 1);
      StrictUnique(le, xs[..n - 1], ys[..n - 1]);
    }
  }

  // ---- equal keys keep their order ----

  /** The elements with one key, in the order they are listed. */
  function OfKey<T, K(==)>(key: T -> K, k: K, xs: seq<T>): seq<T> {
    if xs == [] then [] else
      OfKey(key, k, xs[..|xs| - 1]) + if key(xs[|xs| - 1]) == k then [xs[|xs| - 1]] else []
  }

  lemma OfKeySnoc<T, K>(key: T -> K, k: K, xs: seq<T>, x: T)
    ensures OfKey(key, k, xs + [x]) == OfKey(key, k, xs) + if key(x) == k then [x] else []
  {
    assert (xs + [x])[..|xs|] == xs;
  }

  /** Two elements are below each other exactly when their keys are equal. */
  ghost predicate OrdersKeys<T(!new), K>(le: (T, T) -> bool, key: T -> K) {
    TotalPreorder(le) && forall a, b :: le(a, b) && le(b, a) <==> key(a) == key(b)
  }

  lemma {:induction false} InsertKeepsOrder<T(!new), K>(le: (T, T) -> bool, key: T -> K, k: K, xs: seq<T>, x: T)
    requires OrdersKeys(le, key)
    ensures OfKey(key, k, Insert(le, xs, x)) == OfKey(key, k, xs + [x])
  {
    OfKeySnoc(key, k, xs, x);
    if xs == [] {
      assert xs + [x] == [x];
    } else {
      var init, last := xs[..|xs| - 1], xs[|xs| - 1];
      if !le(last, x) {
        InsertKeepsOrder(le, key, k, init, x);
        OfKeySnoc(key, k, init, x);
        OfKeySnoc(key, k, Insert(le, init, x), last);
        assert key(last) != key(x);
      }
    }
  }

  /** Sorting keeps the order of elements with one key. */
  lemma {:induction false} SortStable<T(!new), K>(le: (T, T) -> bool, key: T -> K, k: K, xs: seq<T>)
    requires OrdersKeys(le, key)
    ensures OfKey(key, k, Sort(le, xs)) == OfKey(key, k, xs)
  {
    if xs != [] {
      var init, last := xs[..|xs| - 1], xs[|xs| - 1];
      SortStable(le, key, k, init);
      InsertKeepsOrder(le, key, k, SortFrom(le, init), last);
      OfKeySnoc(key, k, SortFrom(le, init), last);
    }
  }

  lemma {:induction false} OfKeyMember<T, K>(key: T -> K, k: K, xs: seq<T>, x: T)
    ensures x in OfKey(key, k, xs) <==> x in xs && key(x) == k
  {
    if xs != [] {
      OfKeyMember(key, k, xs[..|xs| - 1], x);
      assert xs == xs[..|xs| - 1] + [xs[|xs| - 1]];
    }
  }

  /** The same elements under each key, in the same order. */
  ghost predicate SameByKey<T, K(!new)>(key: T -> K, xs: seq<T>, ys: seq<T>) {
    forall k :: OfKey(key, k, xs) == OfKey(key, k, ys)
  }

  /** The last element of one list is not above the last of the other. */
  lemma LastBelow<T(!new), K(!new)>(le: (T, T) -> bool, key: T -> K, xs: seq<T>, ys: seq<T>)
    requires OrdersKeys(le, key) && Ordered(le, ys) && xs != []
    requires SameByKey(key, xs, ys)
    ensures ys != [] && le(xs[|xs| - 1], ys[|ys| - 1])
  {
    var a := xs[|xs| - 1];
    OfKeyMember(key, key(a), xs, a);
    OfKeyMember(key, key(a), ys, a);
    assert OfKey(key, key(a), xs) == OfKey(key, key(a), ys);
    assert a in ys;
    var i :| 0 <= i < |ys| && ys[i] == a;
    assert i < |ys| - 1 ==> le(ys[i], ys[|ys| - 1]);
  }

  /** An ordered list is determined by what it lists under each key. */
  lemma {:induction false} OrderedUnique<T(!new), K(!new)>(le: (T, T) -> bool, key: T -> K, xs: seq<T>, ys: seq<T>)
    requires OrdersKeys(le, key) && Ordered(le, xs) && Ordered(le, ys)
    requires SameByKey(key, xs, ys)
    ensures xs == ys
    decreases |xs|
  {
    if xs == [] {
      if ys != [] {
        LastBelow(le, key, ys, xs);
      }
    } else {
      LastBelow(le, key, xs, ys);
      LastBelow(le, key, ys, xs);
      var init, last, init', last' := xs[..|xs| - 1], xs[|xs| - 1], ys[..|ys| - 1], ys[|ys| - 1];
      assert xs == init + [last] && ys == init' + [last'];
      SameLastOfKey(key, init, last, init', last');
      assert forall i :: 0 <= i < |init| ==> init[i] == xs[i];
      assert forall i :: 0 <= i < |init'| ==> init'[i] == ys[i];
      OrderedUnique(le, key, init, init');
    }
  }

  lemma SameLastOfKey<T, K(!new)>(key: T -> K, init: seq<T>, last: T, init': seq<T>, last': T)
    requires key(last) == key(last')
    requires SameByKey(key, init + [last], init' + [last'])
    ensures last == last' && SameByKey(key, init, init')
  {
    forall k
      ensures OfKey(key, k, init) == OfKey(key, k, init')
    {
      assert OfKey(key, k, init + [last]) == OfKey(key, k, init' + [last']);
      SameInitOfKey(key, k, init, last, init', last');
    }
    assert OfKey(key, key(last), init + [last]) == OfKey(key, key(last), init' + [last']);
    SameInitOfKey(key, key(last), init, last, init', last');
  }

  lemma SameInitOfKey<T, K>(key: T -> K, k: K, init: seq<T>, last: T, init': seq<T>, last': T)
    requires key(last) == key(last')
    requires OfKey(key, k, init + [last]) == OfKey(key, k, init' + [last'])
    ensures OfKey(key, k, init) == OfKey(key, k, init') && (k == key(last) ==> last == last')
  {
    OfKeySnoc(key, k, init, last);
    OfKeySnoc(key, k, init', last');
    SameInit(OfKey(key, k, init), last, OfKey(key, k, init'), last', k == key(last));
  }

  lemma SameInit<T>(a: seq<T>, x: T, b: seq<T>, y: T, more: bool)
    requires a + (if more then [x] else []) == b + (if more then [y] else [])
    ensures a == b && (more ==> x == y)
  {
    if more {
      SameSnoc(a, x, b, y);
    } else {
      assert a + [] == a && b + [] == b;
    }
  }

  lemma SameSnoc<T>(a: seq<T>, x: T, b: seq<T>, y: T)
    requires a + [x] == b + [y]
    ensures a == b && x == y
  {
    var c := a + [x];
    assert c[|c| - 1] == x && c[..|c| - 1] == a;
    assert (b + [y])[|b|] == y && (b + [y])[..|b|] == b;
  }

  /** Two lists sort to one exactly when they list the same elements under each key, in the same order. */
  lemma SortSameIff<T(!new), K(!new)>(le: (T, T) -> bool, key: T -> K, xs: seq<T>, ys: seq<T>)
    requires OrdersKeys(le, key)
    ensures Sort(le, xs) == Sort(le, ys) <==> SameByKey(key, xs, ys)
  {
    forall k
      ensures OfKey(key, k, Sort(le, xs)) == OfKey(key, k, xs) && OfKey(key, k, Sort(le, ys)) == OfKey(key, k, ys)
    {
      SortStable(le, key, k, xs);
      SortStable(le, key, k, ys);
    }
    if Sort(le, xs) == Sort(le, ys) {
      forall k
        ensures OfKey(key, k, xs) == OfKey(key, k, ys)
      {
        assert OfKey(key, k, Sort(le, xs)) == OfKey(key, k, Sort(le, ys));
      }
    }
    if SameByKey(key, xs, ys) {
      SortSorts(le, xs);
      SortSorts(le, ys);
      OrderedUnique(le, key, Sort(le, xs), Sort(le, ys));
    }
  }

  // ---- distinct keys ----

  ghost predicate DistinctKeys<T, K>(key: T -> K, xs: seq<T>) {
    forall i, j :: 0 <= i < j < |xs| ==> key(xs[i]) != key(xs[j])
  }

  lemma {:induction false} OfKeyCounts<T, K>(key: T -> K, k: K, xs: seq<T>, x: T)
    ensures multiset(OfKey(key, k, xs))[x] == if key(x) == k then multiset(xs)[x] else 0
  {
    if xs != [] {
      OfKeyCounts(key, k, xs[..|xs| - 1], x);
      assert xs == xs[..|xs| - 1] + [xs[|xs| - 1]];
    }
  }

  lemma {:induction false} OneOfKey<T, K>(key: T -> K, k: K, xs: seq<T>)
    requires DistinctKeys(key, xs)
    ensures |OfKey(key, k, xs)| <= 1
  {
    if xs != [] {
      var init, last := xs[..|xs| - 1], xs[|xs| - 1];
      assert forall i :: 0 <= i < |init| ==> init[i] == xs[i];
      OneOfKey(key, k, init);
      if OfKey(key, k, init) != [] {
        var x := OfKey(key, k, init)[0];
        OfKeyMember(key, k, init, x);
        var i :| 0 <= i < |init| && init[i] == x;
        assert key(xs[i]) != key(last);
      }
    }
  }

  /** With distinct keys the listed order does not matter. */
  lemma PermutationSorts<T(!new), K(!new)>(le: (T, T) -> bool, key: T -> K, xs: seq<T>, ys: seq<T>)
    requires OrdersKeys(le, key) && DistinctKeys(key, xs) && multiset(xs) == multiset(ys)
    ensures Sort(le, xs) == Sort(le, ys)
  {
    forall k
      ensures OfKey(key, k, xs) == OfKey(key, k, ys)
    {
      var a, b := OfKey(key, k, xs), OfKey(key, k, ys);
      OneOfKey(key, k, xs);
      forall x
        ensures multiset(a)[x] == multiset(b)[x]
      {
        OfKeyCounts(key, k, xs, x);
        OfKeyCounts(key, k, ys, x);
      }
      SmallMultisets(a, b);
    }
    SortSameIff(le, key, xs, ys);
  }

  lemma SmallMultisets<T>(a: seq<T>, b: seq<T>)
    requires multiset(a) == multiset(b) && |a| <= 1
    ensures a == b
  {
    assert |multiset(a)| == |a| && |multiset(b)| == |b|;
    if a != [] {
      assert a == [a[0]] && b == [b[0]];
      assert b[0] in multiset(a);
    }
  }
}
