/** Per-worker file handles: a uri is opened once and its handle reused, with at most `maxOpen` handles
open at a time and the least recently used one closed first. */
module Resources {
  import opened Wrappers

  /** A handle is the how-many-th open it came from: openers return fresh handles. */
  type Handle = nat

  /** The handles at hand, least recently used first; the uri every handle was opened for; and the handles
      closed, in order. */
  datatype Cache = Cache(handles: seq<(string, Handle)>, opens: seq<string>, closed: seq<Handle>)

  const NO_HANDLES: Cache := Cache([], [], [])

  function HandlesOf(entries: seq<(string, Handle)>): (hs: seq<Handle>)
    ensures |hs| == |entries| && forall i :: 0 <= i < |hs| ==> hs[i] == entries[i].1
  {
    Map((e: (string, Handle)) => e.1, entries)
  }

  function UrisOf(entries: seq<(string, Handle)>): (us: seq<string>)
    ensures |us| == |entries| && forall i :: 0 <= i < |us| ==> us[i] == entries[i].0
  {
    Map((e: (string, Handle)) => e.0, entries)
  }

  /** The position of a uri, or the length if it is not there. */
  function Find(entries: seq<(string, Handle)>, uri: string): (i: nat)
    ensures i <= |entries|
    ensures i < |entries| ==> entries[i].0 == uri
    ensures i == |entries| <==> uri !in UrisOf(entries)
  {
    if entries == [] then 0
    else
      FirstUri(entries, uri);
      if entries[0].0 == uri then 0 else Find(entries[1..], uri) + 1
  }

  lemma FirstUri(entries: seq<(string, Handle)>, uri: string)
    requires entries != []
    ensures uri in UrisOf(entries) <==> uri == entries[0].0 || uri in UrisOf(entries[1..])
  {
    assert UrisOf(entries) == [entries[0].0] + UrisOf(entries[1..]);
  }

  function Without<T>(xs: seq<T>, i: nat): seq<T>
    requires i < |xs|
  {
    xs[..i] + xs[i + 1..]
  }

  /** Drop from the front until at most `k` are left. */
  function Bounded(k: nat, c: Cache): Cache {
    var excess := if |c.handles| > k then |c.handles| - k else 0;
    Cache(c.handles[excess..], c.opens, c.closed + HandlesOf(c.handles[..excess]))
  }

  /** Use a uri: move its handle to the end, or open it there and close what is over the bound. */
  function Use(k: nat, c: Cache, uri: string): Cache {
    var i := Find(c.handles, uri);
    if i < |c.handles| then c.(handles := Without(c.handles, i) + [c.handles[i]])
    else Bounded(k, Cache(c.handles + [(uri, |c.opens|)], c.opens + [uri], c.closed))
  }

  function CloseAll(c: Cache): Cache {
    Cache([], c.opens, c.closed + HandlesOf(c.handles))
  }

  datatype Access = Open(uri: string) | Close

  /** The cache after a trace of accesses. */
  function After(k: nat, trace: seq<Access>): Cache {
    if trace == [] then NO_HANDLES
    else
      var c := After(k, trace[..|trace| - 1]);
      match trace[|trace| - 1]
      case Open(uri) => Use(k, c, uri)
      case Close => CloseAll(c)
  }

  // ---- what a trace means, without the cache ----

  /** The last use of a uri since the last close. */
  ghost predicate LastUse(trace: seq<Access>, uri: string, i: nat) {
    && i < |trace| && trace[i] == Open(uri)
    && forall j :: i < j < |trace| ==> trace[j] != Open(uri) && trace[j] != Close
  }

  /** The uris used after position `i`. */
  ghost function UsedAfter(trace: seq<Access>, i: nat): set<string> {
    set j | i < j < |trace| && trace[j].Open? :: trace[j].uri
  }

  /** All uris used since the last close, in the order of their last uses. */
  ghost function Recent(trace: seq<Access>): seq<string> {
    if trace == [] then []
    else
      var us := Recent(trace[..|trace| - 1]);
      match trace[|trace| - 1]
      case Open(uri) => Moved(us, uri)
      case Close => []
  }

  /** The list with `x` moved or appended at the end. */
  ghost function Moved(xs: seq<string>, x: string): seq<string> {
    RemoveAll(xs, x) + [x]
  }

  ghost function RemoveAll(xs: seq<string>, x: string): (r: seq<string>)
    ensures x !in r && forall y :: y in r <==> y in xs && y != x
  {
    if xs == [] then [] else
      var last := xs[|xs| - 1];
      assert xs == xs[..|xs| - 1] + [last];
      RemoveAll(xs[..|xs| - 1], x) + if last == x then [] else [last]
  }

  lemma NoDuplicatesSnoc(xs: seq<string>, x: string)
    ensures NoDuplicates(xs + [x]) <==> NoDuplicates(xs) && x !in xs
  {
    var more := xs + [x];
    assert more[|xs|] == x;
    assert forall i :: 0 <= i < |xs| ==> more[i] == xs[i];
  }

  lemma {:induction false} RemoveAllKeepsDistinct(xs: seq<string>, x: string)
    requires NoDuplicates(xs)
    ensures NoDuplicates(RemoveAll(xs, x)) && NoDuplicates(Moved(xs, x))
  {
    if xs != [] {
      var init, last := xs[..|xs| - 1], xs[|xs| - 1];
      assert xs == init + [last];
      NoDuplicatesSnoc(init, last);
      RemoveAllKeepsDistinct(init, x);
      NoDuplicatesSnoc(RemoveAll(init, x), last);
    }
    NoDuplicatesSnoc(RemoveAll(xs, x), x);
  }

  lemma {:induction false} RecentDistinct(trace: seq<Access>)
    ensures NoDuplicates(Recent(trace))
  {
    if trace != [] {
      RecentDistinct(trace[..|trace| - 1]);
      if trace[|trace| - 1].Open? {
        RemoveAllKeepsDistinct(Recent(trace[..|trace| - 1]), trace[|trace| - 1].uri);
      }
    }
  }

  // ---- ranks by recency ----

  /** The elements after the (last) occurrence of `x`. */
  ghost function Later(xs: seq<string>, x: string): (r: set<string>)
    requires x in xs
    ensures forall y :: y in r ==> y in xs
  {
    var init, last := xs[..|xs| - 1], xs[|xs| - 1];
    assert xs == init + [last];
    if last == x then {} else Later(init, x) + {last}
  }

  lemma LaterAppend(xs: seq<string>, last: string, y: string)
    ensures y in xs && y != last ==> Later(xs + [last], y) == Later(xs, y) + {last}
    ensures Later(xs + [last], last) == {}
  {
    assert (xs + [last])[..|xs|] == xs;
  }

  lemma RemoveAllSnoc(xs: seq<string>, last: string, x: string)
    ensures RemoveAll(xs + [last], x) == RemoveAll(xs, x) + if last == x then [] else [last]
  {
    assert (xs + [last])[..|xs|] == xs;
  }

  lemma {:induction false} LaterRemoved(xs: seq<string>, x: string, y: string)
    requires y in xs && y != x
    ensures Later(RemoveAll(xs, x), y) == Later(xs, y) - {x}
  {
    var init, last := xs[..|xs| - 1], xs[|xs| - 1];
    assert xs == init + [last];
    RemoveAllSnoc(init, last, x);
    LaterAppend(init, last, y);
    LaterAppend(RemoveAll(init, x), last, y);
    if last != y {
      LaterRemoved(init, x, y);
      assert last == x ==> RemoveAll(xs, x) == RemoveAll(init, x);
    }
  }

  lemma LaterMoved(xs: seq<string>, x: string, y: string)
    requires y in xs && y != x
    ensures Later(Moved(xs, x), y) == Later(xs, y) + {x}
  {
    LaterRemoved(xs, x, y);
    LaterAppend(RemoveAll(xs, x), x, y);
  }

  ghost function LastOf(k: nat, xs: seq<string>): seq<string> {
    if |xs| > k then xs[|xs| - k..] else xs
  }

  /** Among the last `k` are exactly those with fewer than `k` later ones. */
  lemma {:induction false} LastByRank(k: nat, xs: seq<string>, x: string)
    requires NoDuplicates(xs) && x in xs
    ensures x in LastOf(k, xs) <==> |Later(xs, x)| < k
    decreases |xs|
  {
    var init, last := xs[..|xs| - 1], xs[|xs| - 1];
    assert xs == init + [last];
    assert last !in init;
    if k == 0 {
      assert LastOf(k, xs) == [];
    } else {
      assert LastOf(k, xs) == LastOf(k - 1, init) + [last];
      if last != x {
        LastByRank(k - 1, init, x);
        assert last !in Later(init, x);
      }
    }
  }

  // ---- traces ----

  lemma LastUseSnoc(trace: seq<Access>, last: Access, uri: string, i: nat)
    ensures LastUse(trace + [last], uri, i)
      <==> (i == |trace| && last == Open(uri)) || (LastUse(trace, uri, i) && last != Open(uri) && last != Close)
  {
    var more := trace + [last];
    assert more[|trace|] == last;
    assert forall j :: 0 <= j < |trace| ==> more[j] == trace[j];
  }

  lemma UsedAfterSnoc(trace: seq<Access>, uri: string, i: nat)
    requires i < |trace|
    ensures UsedAfter(trace + [Open(uri)], i) == UsedAfter(trace, i) + {uri}
  {
    var more := trace + [Open(uri)];
    assert more[|trace|] == Open(uri);
    assert forall j :: 0 <= j < |trace| ==> more[j] == trace[j];
    forall x | x in UsedAfter(trace, i)
      ensures x in UsedAfter(more, i)
    {
      var j :| i < j < |trace| && trace[j].Open? && trace[j].uri == x;
      assert more[j].uri == x;
    }
    forall x | x in UsedAfter(more, i)
      ensures x in UsedAfter(trace, i) || x == uri
    {
      var j :| i < j < |more| && more[j].Open? && more[j].uri == x;
      assert j < |trace| ==> trace[j].uri == x;
    }
    assert more[|trace|].uri in UsedAfter(more, i);
  }

  lemma RecentSnoc(trace: seq<Access>, last: Access)
    ensures Recent(trace + [last]) == match last case Open(uri) => Moved(Recent(trace), uri) case Close => []
  {
    assert (trace + [last])[..|trace|] == trace;
  }

  /** `Recent` lists the uris used since the last close, and what follows a uri there is what was used
      after its last use. */
  lemma {:induction false} RecentMeans(trace: seq<Access>, uri: string, i: nat)
    requires LastUse(trace, uri, i)
    ensures uri in Recent(trace) && Later(Recent(trace), uri) == UsedAfter(trace, i)
    decreases |trace|
  {
    var init, last := trace[..|trace| - 1], trace[|trace| - 1];
    assert trace == init + [last];
    LastUseSnoc(init, last, uri, i);
    RecentSnoc(init, last);
    if last == Open(uri) {
      LaterAppend(RemoveAll(Recent(init), uri), uri, uri);
      assert i == |init|;
    } else {
      RecentMeans(init, uri, i);
      UsedAfterSnoc(init, last.uri, i);
      LaterMoved(Recent(init), last.uri, uri);
    }
  }

  lemma {:induction false} RecentIsUsed(trace: seq<Access>, uri: string) returns (i: nat)
    requires uri in Recent(trace)
    ensures LastUse(trace, uri, i)
    decreases |trace|
  {
    var init, last := trace[..|trace| - 1], trace[|trace| - 1];
    assert trace == init + [last];
    RecentSnoc(init, last);
    i := |init|;
    if last != Open(uri) {
      i := RecentIsUsed(init, uri);
    }
    LastUseSnoc(init, last, uri, i);
  }

  // ---- the cache follows recency ----

  lemma {:induction false} RemoveAllConcat(xs: seq<string>, ys: seq<string>, x: string)
    ensures RemoveAll(xs + ys, x) == RemoveAll(xs, x) + RemoveAll(ys, x)
    decreases |ys|
  {
    if ys == [] {
      assert xs + ys == xs;
    } else {
      assert (xs + ys)[..|xs + ys| - 1] == xs + ys[..|ys| - 1];
      RemoveAllConcat(xs, ys[..|ys| - 1], x);
    }
  }

  lemma {:induction false} RemoveAllAbsent(xs: seq<string>, x: string)
    requires x !in xs
    ensures RemoveAll(xs, x) == xs
  {
    if xs != [] {
      RemoveAllAbsent(xs[..|xs| - 1], x);
    }
  }

  /** Removing the one occurrence. */
  lemma RemoveOne(a: seq<string>, x: string, b: seq<string>)
    requires x !in a && x !in b
    ensures RemoveAll(a + [x] + b, x) == a + b
  {
    RemoveAllSnoc(a, x, x);
    RemoveAllConcat(a + [x], b, x);
    RemoveAllAbsent(a, x);
    RemoveAllAbsent(b, x);
    assert a + [] == a;
  }

  lemma LastOfTail(k: nat, a: seq<string>, t: seq<string>)
    requires |t| >= k || a == []
    ensures LastOf(k, a + t) == LastOf(k, t)
  {
    assert a == [] ==> a + t == t;
  }

  /** What is among the last `k`, and what comes before. */
  ghost function Before(k: nat, xs: seq<string>): (a: seq<string>)
    ensures xs == a + LastOf(k, xs) && (|LastOf(k, xs)| == k || (a == [] && |LastOf(k, xs)| < k))
  {
    xs[..|xs| - |LastOf(k, xs)|]
  }

  lemma AroundHit(a: seq<string>, us: seq<string>, i: nat)
    requires NoDuplicates(a + us) && i < |us|
    ensures us[i] !in a + us[..i] && us[i] !in us[i + 1..]
    ensures a + us == a + us[..i] + [us[i]] + us[i + 1..]
  {
    var xs := a + us;
    assert xs[|a| + i] == us[i];
    assert forall j :: 0 <= j < |a| + i ==> (a + us[..i])[j] == xs[j];
    assert forall j {:trigger us[i + 1..][j]} :: 0 <= j < |us| - i - 1 ==> us[i + 1..][j] == xs[|a| + i + 1 + j];
  }

  /** Using a uri that is among the last `k`. */
  lemma MovedHit(k: nat, xs: seq<string>, i: nat)
    requires NoDuplicates(xs) && i < |LastOf(k, xs)|
    ensures LastOf(k, Moved(xs, LastOf(k, xs)[i])) == Without(LastOf(k, xs), i) + [LastOf(k, xs)[i]]
  {
    var us, a := LastOf(k, xs), Before(k, xs);
    AroundHit(a, us, i);
    RemoveOne(a + us[..i], us[i], us[i + 1..]);
    Reassociate(a, us[..i], us[i + 1..]);
    Reassociate(a, us[..i] + us[i + 1..], [us[i]]);
    LastOfTail(k, a, Without(us, i) + [us[i]]);
  }

  /** Using a uri that is not. */
  lemma MovedMiss(k: nat, xs: seq<string>, x: string)
    requires x !in LastOf(k, xs)
    ensures LastOf(k, Moved(xs, x)) == LastOf(k, LastOf(k, xs) + [x])
  {
    var us, a := LastOf(k, xs), Before(k, xs);
    RemoveAllConcat(a, us, x);
    RemoveAllAbsent(us, x);
    assert Moved(xs, x) == RemoveAll(a, x) + (us + [x]);
    assert a == [] ==> RemoveAll(a, x) == [];
    LastOfTail(k, RemoveAll(a, x), us + [x]);
  }

  lemma UrisOfHit(entries: seq<(string, Handle)>, i: nat)
    requires i < |entries|
    ensures UrisOf(Without(entries, i) + [entries[i]]) == Without(UrisOf(entries), i) + [entries[i].0]
  {
  }

  lemma UrisOfMiss(entries: seq<(string, Handle)>, e: (string, Handle), k: nat)
    ensures UrisOf((entries + [e])[if |entries| + 1 > k then |entries| + 1 - k else 0..]) == LastOf(k, UrisOf(entries) + [e.0])
  {
    assert UrisOf(entries + [e]) == UrisOf(entries) + [e.0];
  }

  lemma UrisOfUse(k: nat, c: Cache, uri: string)
    ensures var us, i := UrisOf(c.handles), Find(c.handles, uri);
      UrisOf(Use(k, c, uri).handles) == if i < |us| then Without(us, i) + [uri] else LastOf(k, us + [uri])
  {
    var i := Find(c.handles, uri);
    if i < |c.handles| {
      UrisOfHit(c.handles, i);
    } else {
      UrisOfMiss(c.handles, (uri, |c.opens|), k);
    }
  }

  /** The cached uris are the `k` last of the recently used ones, in that order. */
  lemma {:induction false} CachedAreRecent(k: nat, trace: seq<Access>)
    ensures UrisOf(After(k, trace).handles) == LastOf(k, Recent(trace))
  {
    if trace != [] {
      var init, last := trace[..|trace| - 1], trace[|trace| - 1];
      CachedAreRecent(k, init);
      RecentDistinct(init);
      var c, rs := After(k, init), Recent(init);
      if last.Open? {
        UrisOfUse(k, c, last.uri);
        var i := Find(c.handles, last.uri);
        if i < |c.handles| {
          assert LastOf(k, rs)[i] == last.uri;
          MovedHit(k, rs, i);
        } else {
          MovedMiss(k, rs, last.uri);
        }
      }
    }
  }

  /** A uri has a handle at hand exactly when it was used since the last close and fewer than `k` other
      uris were used after its last use. */
  lemma CachedIffRecent(k: nat, trace: seq<Access>, uri: string)
    ensures uri in UrisOf(After(k, trace).handles)
      <==> exists i :: LastUse(trace, uri, i) && |UsedAfter(trace, i)| < k
  {
    CachedAreRecent(k, trace);
    RecentDistinct(trace);
    var rs := Recent(trace);
    assert forall x :: x in LastOf(k, rs) ==> x in rs;
    if uri in rs {
      var i := RecentIsUsed(trace, uri);
      RecentMeans(trace, uri, i);
      LastByRank(k, rs, uri);
    }
    if j: nat :| LastUse(trace, uri, j) && |UsedAfter(trace, j)| < k {
      RecentMeans(trace, uri, j);
      LastByRank(k, rs, uri);
    }
  }

  // ---- bounds and opens ----

  /** A larger bound never performs more opens. */
  lemma {:induction false} LargerBoundOpensLess(k: nat, k': nat, trace: seq<Access>)
    requires k <= k'
    ensures |After(k', trace).opens| <= |After(k, trace).opens|
  {
    if trace != [] {
      var init, last := trace[..|trace| - 1], trace[|trace| - 1];
      LargerBoundOpensLess(k, k', init);
      if last.Open? {
        CachedAreRecent(k, init);
        CachedAreRecent(k', init);
        var rs := Recent(init);
        assert last.uri in LastOf(k, rs) ==> last.uri in LastOf(k', rs);
      }
    }
  }

  // ---- every handle is at hand or closed, once ----

  ghost function UpTo(n: nat): (hs: seq<Handle>)
    ensures |hs| == n && forall h :: 0 <= h < n ==> hs[h] == h
  {
    seq(n, h => h)
  }

  /** Every handle ever opened is either at hand or closed, and only once. */
  ghost predicate Accounted(c: Cache) {
    && multiset(HandlesOf(c.handles) + c.closed) == multiset(UpTo(|c.opens|))
    && forall e :: e in c.handles ==> e.1 < |c.opens| && c.opens[e.1] == e.0
  }

  lemma HandlesSplit(a: seq<(string, Handle)>, b: seq<(string, Handle)>)
    ensures HandlesOf(a + b) == HandlesOf(a) + HandlesOf(b)
  {
  }

  lemma WithoutHandle(entries: seq<(string, Handle)>, i: nat)
    requires i < |entries|
    ensures multiset(HandlesOf(Without(entries, i) + [entries[i]])) == multiset(HandlesOf(entries))
  {
    var a, x, b := entries[..i], [entries[i]], entries[i + 1..];
    assert entries == a + x + b;
    HandlesSplit(a + x, b);
    HandlesSplit(a, x);
    HandlesSplit(a + b, x);
    HandlesSplit(a, b);
    assert multiset(HandlesOf(a) + HandlesOf(x) + HandlesOf(b)) == multiset(HandlesOf(a) + HandlesOf(b) + HandlesOf(x));
  }

  lemma BoundedAccounted(k: nat, c: Cache)
    requires Accounted(c)
    ensures Accounted(Bounded(k, c)) && |Bounded(k, c).handles| <= k
  {
    var excess := if |c.handles| > k then |c.handles| - k else 0;
    var front, back := c.handles[..excess], c.handles[excess..];
    assert c.handles == front + back;
    HandlesSplit(front, back);
    assert multiset(HandlesOf(back) + (c.closed + HandlesOf(front))) == multiset(HandlesOf(front) + HandlesOf(back) + c.closed);
    assert forall e :: e in back ==> e in c.handles;
  }

  lemma OpenedAccounted(c: Cache, uri: string)
    requires Accounted(c)
    ensures Accounted(Cache(c.handles + [(uri, |c.opens|)], c.opens + [uri], c.closed))
  {
    var n := |c.opens|;
    HandlesSplit(c.handles, [(uri, n)]);
    assert UpTo(n + 1) == UpTo(n) + [n];
    assert HandlesOf([(uri, n)]) == [n];
    assert multiset(HandlesOf(c.handles) + [n] + c.closed) == multiset(HandlesOf(c.handles) + c.closed + [n]);
  }

  lemma TouchedAccounted(c: Cache, i: nat)
    requires Accounted(c) && i < |c.handles|
    ensures Accounted(Cache(Without(c.handles, i) + [c.handles[i]], c.opens, c.closed))
  {
    WithoutHandle(c.handles, i);
    assert forall e :: e in Without(c.handles, i) + [c.handles[i]] ==> e in c.handles;
  }

  lemma UseAccounted(k: nat, c: Cache, uri: string)
    requires Accounted(c) && |c.handles| <= k
    ensures Accounted(Use(k, c, uri)) && |Use(k, c, uri).handles| <= k
  {
    var i := Find(c.handles, uri);
    if i < |c.handles| {
      TouchedAccounted(c, i);
    } else {
      OpenedAccounted(c, uri);
      BoundedAccounted(k, Cache(c.handles + [(uri, |c.opens|)], c.opens + [uri], c.closed));
    }
  }

  lemma CloseAccounted(c: Cache)
    requires Accounted(c)
    ensures Accounted(CloseAll(c))
  {
    assert multiset([] + (c.closed + HandlesOf(c.handles))) == multiset(HandlesOf(c.handles) + c.closed);
  }

  lemma {:induction false} AfterAccounted(k: nat, trace: seq<Access>)
    ensures Accounted(After(k, trace)) && |After(k, trace).handles| <= k
  {
    if trace == [] {
      assert UpTo(0) == [];
    } else {
      AfterAccounted(k, trace[..|trace| - 1]);
      if trace[|trace| - 1].Open? {
        UseAccounted(k, After(k, trace[..|trace| - 1]), trace[|trace| - 1].uri);
      } else {
        CloseAccounted(After(k, trace[..|trace| - 1]));
      }
    }
  }

  lemma AccountedOnce(c: Cache, h: Handle)
    requires Accounted(c) && h < |c.opens|
    ensures multiset(HandlesOf(c.handles))[h] + multiset(c.closed)[h] == 1
  {
    UpToOnce(|c.opens|, h);
    assert multiset(HandlesOf(c.handles) + c.closed)[h] == multiset(UpTo(|c.opens|))[h];
  }

  lemma {:induction false} UpToOnce(n: nat, h: Handle)
    ensures multiset(UpTo(n))[h] == if h < n then 1 else 0
  {
    if n == 0 {
      assert UpTo(0) == [];
    } else {
      UpToOnce(n - 1, h);
      assert UpTo(n) == UpTo(n - 1) + [n - 1];
    }
  }

  /** After any trace a handle is open (opened and not closed) exactly when it is at hand, and it was
      closed at most once. */
  lemma OpenIffCached(k: nat, trace: seq<Access>, h: Handle)
    requires h < |After(k, trace).opens|
    ensures var c := After(k, trace);
      (h !in c.closed <==> h in HandlesOf(c.handles)) && multiset(c.closed)[h] <= 1
  {
    var c := After(k, trace);
    AfterAccounted(k, trace);
    AccountedOnce(c, h);
    assert h in HandlesOf(c.handles) <==> h in multiset(HandlesOf(c.handles));
    assert h in c.closed <==> h in multiset(c.closed);
  }

  /** The handle a use returns: the one at hand, or a fresh one. */
  function Returned(c: Cache, uri: string): Handle {
    var i := Find(c.handles, uri);
    if i < |c.handles| then c.handles[i].1 else |c.opens|
  }

  lemma AfterSnoc(k: nat, trace: seq<Access>, uri: string)
    ensures After(k, trace + [Open(uri)]) == Use(k, After(k, trace), uri)
  {
    assert (trace + [Open(uri)])[..|trace|] == trace;
  }

  lemma ReturnedAtHand(k: nat, c: Cache, uri: string)
    requires Accounted(c) && |c.handles| <= k
    ensures Returned(c, uri) < |Use(k, c, uri).opens| && Use(k, c, uri).opens[Returned(c, uri)] == uri
    ensures Returned(c, uri) in HandlesOf(Use(k, c, uri).handles) <==> k >= 1
  {
    var c' := Use(k, c, uri);
    var n := |c'.handles|;
    assert k >= 1 ==> HandlesOf(c'.handles)[n - 1] == Returned(c, uri);
  }

  /** A use returns a handle that was opened for its uri, and that is still open exactly when the bound is
      at least one. */
  lemma ReturnedIsOpen(k: nat, trace: seq<Access>, uri: string)
    ensures var c, c' := After(k, trace), After(k, trace + [Open(uri)]); var h := Returned(c, uri);
      h < |c'.opens| && c'.opens[h] == uri && (h !in c'.closed <==> k >= 1)
  {
    AfterSnoc(k, trace, uri);
    AfterAccounted(k, trace);
    ReturnedAtHand(k, After(k, trace), uri);
    OpenIffCached(k, trace + [Open(uri)], Returned(After(k, trace), uri));
  }

  // ---- the cache as it runs ----

  /** An opener may raise; a negative bound makes the eviction loop pop from an empty cache. */
  datatype OpenError = OpenerRaised | EmptyCache

  /** The handles closed once the first `n` entries are. */
  ghost function ClosedTo(closed: seq<Handle>, entries: seq<(string, Handle)>, n: nat): seq<Handle>
    requires n <= |entries|
  {
    closed + HandlesOf(entries[..n])
  }

  /** The cache once the first `n` entries are evicted. */
  ghost function Evicted(c: Cache, n: nat): Cache
    requires n <= |c.handles|
  {
    Cache(c.handles[n..], c.opens, ClosedTo(c.closed, c.handles, n))
  }

  lemma ClosedStep(closed: seq<Handle>, entries: seq<(string, Handle)>, n: nat)
    requires n < |entries|
    ensures ClosedTo(closed, entries, n + 1) == ClosedTo(closed, entries, n) + [entries[n].1]
    ensures entries[n..][0] == entries[n] && entries[n..][1..] == entries[n + 1..]
  {
    assert entries[..n + 1] == entries[..n] + [entries[n]];
    HandlesSplit(entries[..n], [entries[n]]);
  }

  lemma ClosedEnds(closed: seq<Handle>, entries: seq<(string, Handle)>)
    ensures ClosedTo(closed, entries, 0) == closed && entries[0..] == entries
    ensures ClosedTo(closed, entries, |entries|) == closed + HandlesOf(entries) && entries[|entries|..] == []
  {
    assert entries[..|entries|] == entries;
  }

  /** Every handle is accounted for and no more are at hand than the bound allows. */
  ghost function Sound(k: int): Cache -> bool {
    (c: Cache) => Accounted(c) && |c.handles| <= if k >= 0 then k else 0
  }

  class LocalResources {
    var handles: seq<(string, Handle)>
    const maxOpen: int
    var openCount: nat
    ghost var opens: seq<string>
    ghost var closed: seq<Handle>

    ghost function Snapshot(): Cache
      reads this
    {
      Cache(handles, opens, closed)
    }

    ghost predicate Counted()
      reads this
    {
      openCount == |opens|
    }

    ghost predicate Valid()
      reads this
    {
      Counted() && Sound(maxOpen)(Snapshot())
    }

    constructor (maxOpen: int)
      ensures Valid() && Snapshot() == NO_HANDLES && this.maxOpen == maxOpen
    {
      this.maxOpen := maxOpen;
      handles, openCount, opens, closed := [], 0, [], [];
      assert UpTo(0) == [];
    }

    /** Close the least recently used handle. */
    method PopFront(ghost start: Cache, ghost n: nat)
      requires n < |start.handles| && Snapshot() == Evicted(start, n)
      modifies this`handles, this`closed
      ensures Snapshot() == Evicted(start, n + 1)
    {
      ClosedStep(start.closed, start.handles, n);
      closed := closed + [handles[0].1];
      handles := handles[1..];
    }

    /** Close from the front while there are too many; popping from an empty cache fails. */
    method CloseOldest() returns (e: Option<OpenError>, ghost n: nat)
      modifies this`handles, this`closed
      ensures n <= |old(handles)| && Snapshot() == Evicted(old(Snapshot()), n)
      ensures e == None ==> |handles| <= maxOpen && (n > 0 ==> |handles| >= maxOpen)
      ensures e != None ==> e == Some(EmptyCache) && maxOpen < 0 && handles == []
    {
      ghost var start := Snapshot();
      n := 0;
      ClosedEnds(closed, handles);
      while |handles| > maxOpen
        invariant n <= |start.handles| && Snapshot() == Evicted(start, n)
        invariant n > 0 ==> |handles| >= maxOpen
        decreases |handles|
      {
        if handles == [] {
          return Some(EmptyCache), n;
        }
        PopFront(start, n);
        n := n + 1;
      }
      e := None;
    }

    /** Bring the cache down to its bound. */
    method Evict() returns (e: Option<OpenError>)
      requires Counted() && Accounted(Snapshot())
      modifies this`handles, this`closed
      ensures Valid()
      ensures maxOpen >= 0 ==> e == None && Snapshot() == Bounded(maxOpen, old(Snapshot()))
      ensures maxOpen < 0 ==> e == Some(EmptyCache) && Snapshot() == CloseAll(old(Snapshot()))
    {
      ghost var n;
      e, n := CloseOldest();
      if e == None {
        EvictedAccounted(maxOpen, old(Snapshot()), n);
      } else {
        EmptiedAccounted(old(Snapshot()), n);
      }
    }

    /** Mark the `i`-th entry as most recently used. */
    method Touch(i: nat) returns (h: Handle)
      requires Valid() && i < |handles|
      modifies this`handles
      ensures Valid() && h == old(handles)[i].1 && handles == Without(old(handles), i) + [old(handles)[i]]
    {
      WithoutHandle(handles, i);
      assert forall e :: e in Without(handles, i) + [handles[i]] ==> e in handles;
      h := handles[i].1;
      handles := Without(handles, i) + [handles[i]];
    }

    /** Take in a fresh handle and evict what is over the bound. */
    method Admit(uri: string) returns (r: Result<Handle, OpenError>)
      requires Valid()
      modifies this
      ensures Valid()
      ensures maxOpen >= 0 ==> r == Ok(old(|opens|))
      ensures maxOpen >= 0 ==>
        Snapshot() == Bounded(maxOpen, Cache(old(handles) + [(uri, old(|opens|))], old(opens) + [uri], old(closed)))
      ensures maxOpen < 0 ==> r == Err(EmptyCache) && handles == []
    {
      var handle := openCount;
      OpenedAccounted(Snapshot(), uri);
      openCount := openCount + 1;
      opens := opens + [uri];
      handles := handles + [(uri, handle)];
      var e := Evict();
      r := match e case None => Ok(handle) case Some(err) => Err(err);
    }

    /** The handle of a uri, opened only if it is not at hand. */
    method OpenOnce(uri: string, raises: bool) returns (r: Result<Handle, OpenError>)
      requires Valid()
      modifies this
      ensures Valid()
      ensures raises && uri !in UrisOf(old(handles)) ==> r == Err(OpenerRaised) && Snapshot() == old(Snapshot())
      ensures maxOpen >= 0 && !(raises && uri !in UrisOf(old(handles))) ==>
        r == Ok(Returned(old(Snapshot()), uri)) && Snapshot() == Use(maxOpen, old(Snapshot()), uri)
      ensures maxOpen < 0 && !raises ==> r == Err(EmptyCache) && handles == []
    {
      var i := Find(handles, uri);
      if i < |handles| {
        var h := Touch(i);
        return Ok(h);
      }
      if raises {
        return Err(OpenerRaised);
      }
      r := Admit(uri);
    }

    method CloseEach()
      modifies this`closed
      ensures closed == old(closed) + HandlesOf(handles)
    {
      ClosedEnds(closed, handles);
      for i := 0 to |handles|
        invariant closed == ClosedTo(old(closed), handles, i)
      {
        ClosedStep(old(closed), handles, i);
        closed := closed + [handles[i].1];
      }
    }

    /** Close every handle. */
    method Close()
      requires Valid()
      modifies this`handles, this`closed
      ensures Valid() && Snapshot() == CloseAll(old(Snapshot()))
    {
      ghost var end := CloseAll(Snapshot());
      CloseAccounted(Snapshot());
      assert Sound(maxOpen)(end);
      CloseEach();
      handles := [];
      assert Snapshot() == end;
    }
  }

  lemma EvictedAccounted(k: int, c: Cache, n: nat)
    requires Accounted(c) && n <= |c.handles| && |c.handles| - n <= k && (n > 0 ==> |c.handles| - n >= k)
    ensures k >= 0 && Evicted(c, n) == Bounded(k, c) && Sound(k)(Bounded(k, c))
  {
    BoundedAccounted(k, c);
  }

  lemma EmptiedAccounted(c: Cache, n: nat)
    requires Accounted(c) && n <= |c.handles| && Evicted(c, n).handles == []
    ensures n == |c.handles| && Evicted(c, n) == CloseAll(c) && forall k :: Sound(k)(CloseAll(c))
  {
    CloseAccounted(c);
    ClosedEnds(c.closed, c.handles);
  }
}
