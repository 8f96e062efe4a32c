/** Deterministic parameter values and key-sorted parameter maps, with their operator-token encoding. */
module Param {
  import opened Wrappers
  import opened Sorting
  import opened Text

  const TWO_TO_52: int := 0x10_0000_0000_0000
  const TWO_TO_63: int := 0x8000_0000_0000_0000
  const TWO_TO_64: int := 0x1_0000_0000_0000_0000

  type i64 = x: int | -TWO_TO_63 <= x < TWO_TO_63
  type u64 = x: int | 0 <= x < TWO_TO_64

  /** A float is its 64-bit pattern; no arithmetic is ever done on it. */
  datatype ParamValue = Int(i: i64) | Float(bits: u64) | Bool(b: bool) | Str(s: string)

  const CANON_NAN: u64 := 0x7ff8_0000_0000_0000

  /** Exponent all ones and a nonzero fraction, whatever the sign. */
  predicate IsNaN(bits: u64) {
    bits / TWO_TO_52 % 0x800 == 0x7ff && bits % TWO_TO_52 != 0
  }

  function FloatKey(bits: u64): u64 {
    if IsNaN(bits) then CANON_NAN else bits
  }

  /** A NaN by its bit ranges: the patterns above positive and above negative infinity. */
  lemma NaNRanges(bits: u64)
    ensures IsNaN(bits) <==> NaNPattern(bits)
  {
  }

  /** Two floats have one canonical value exactly when their patterns are equal or both are NaN. */
  lemma FloatKeysAgree(a: u64, b: u64)
    ensures CanonValue(Float(a)) == CanonValue(Float(b))
      <==> a == b || (NaNPattern(a) && NaNPattern(b))
  {
    NaNRanges(a);
    NaNRanges(b);
    NaNRanges(CANON_NAN);
  }

  ghost predicate NaNPattern(bits: u64) {
    0x7ff0_0000_0000_0000 < bits < 0x8000_0000_0000_0000 || 0xfff0_0000_0000_0000 < bits
  }

  /** Interning identifies values up to this map: every NaN collapses, signed zeros stay apart. */
  function CanonValue(v: ParamValue): ParamValue {
    match v
    case Float(bits) => Float(FloatKey(bits))
    case _ => v
  }

  lemma CanonValueIdempotent(v: ParamValue)
    ensures CanonValue(CanonValue(v)) == CanonValue(v)
  {
  }

  // ---- sorted entries ----

  datatype Entry = Entry(key: string, value: ParamValue)

  /** Lexicographic order by scalar value, which is also the order of the UTF-8 bytes. */
  predicate KeyLe(a: string, b: string) {
    a == [] || (b != [] && (a[0] < b[0] || (a[0] == b[0] && KeyLe(a[1..], b[1..]))))
  }

  lemma {:induction false} KeyLeTotal(a: string, b: string)
    ensures KeyLe(a, b) || KeyLe(b, a)
  {
    if a != [] && b != [] {
      KeyLeTotal(a[1..], b[1..]);
    }
  }

  lemma {:induction false} KeyLeTransitive(a: string, b: string, c: string)
    requires KeyLe(a, b) && KeyLe(b, c)
    ensures KeyLe(a, c)
  {
    if a != [] && a[0] == b[0] == c[0] {
      KeyLeTransitive(a[1..], b[1..], c[1..]);
    }
  }

  /** The first difference is at `i`, and there the first string has the smaller character. */
  ghost predicate LessAt(a: string, b: string, i: nat) {
    i < |a| && i < |b| && a[..i] == b[..i] && a[i] < b[i]
  }

  /** A key is before another exactly when it is a prefix or has the smaller character at the first difference. */
  lemma {:induction false} KeyLeIff(a: string, b: string)
    ensures KeyLe(a, b) <==> a <= b || exists i: nat :: LessAt(a, b, i)
  {
    if a != [] && b != [] && a[0] == b[0] {
      KeyLeIff(a[1..], b[1..]);
      assert a == [a[0]] + a[1..] && b == [b[0]] + b[1..];
      if i: nat :| LessAt(a[1..], b[1..], i) {
        assert a[..i + 1] == [a[0]] + a[1..][..i] && b[..i + 1] == [b[0]] + b[1..][..i];
        assert LessAt(a, b, i + 1);
      }
      if i: nat :| LessAt(a, b, i) {
        assert i > 0 && a[1..][..i - 1] == a[..i][1..] && b[1..][..i - 1] == b[..i][1..];
        assert LessAt(a[1..], b[1..], i - 1);
      }
    } else if a != [] && b != [] {
      assert a[0] < b[0] ==> LessAt(a, b, 0);
      if i: nat :| LessAt(a, b, i) {
        assert i > 0 ==> a[..i][0] == b[..i][0];
      }
    }
  }

  lemma {:induction false} KeyLeAntisymmetric(a: string, b: string)
    requires KeyLe(a, b) && KeyLe(b, a)
    ensures a == b
  {
    if a != [] && b != [] {
      KeyLeAntisymmetric(a[1..], b[1..]);
      assert a == [a[0]] + a[1..] && b == [b[0]] + b[1..];
    }
  }

  predicate EntryLe(a: Entry, b: Entry) {
    KeyLe(a.key, b.key)
  }

  lemma EntryOrder()
    ensures TotalPreorder(EntryLe)
  {
    forall a, b
      ensures EntryLe(a, b) || EntryLe(b, a)
    {
      KeyLeTotal(a.key, b.key);
    }
    forall a, b, c | EntryLe(a, b) && EntryLe(b, c)
      ensures EntryLe(a, c)
    {
      KeyLeTransitive(a.key, b.key, c.key);
    }
  }

  function EntryKey(e: Entry): string {
    e.key
  }

  lemma {:induction false} KeyLeReflexive(a: string)
    ensures KeyLe(a, a)
  {
    if a != [] {
      KeyLeReflexive(a[1..]);
    }
  }

  lemma EntriesByKey()
    ensures OrdersKeys(EntryLe, EntryKey)
  {
    EntryOrder();
    forall a, b
      ensures EntryLe(a, b) && EntryLe(b, a) <==> EntryKey(a) == EntryKey(b)
    {
      if EntryLe(a, b) && EntryLe(b, a) {
        KeyLeAntisymmetric(a.key, b.key);
      }
      KeyLeReflexive(a.key);
    }
  }

  ghost predicate SortedByKey(es: seq<Entry>) {
    forall i, j :: 0 <= i < j < |es| ==> KeyLe(es[i].key, es[j].key)
  }

  /** The only way to build a map is `NewMap`, so its entries are always sorted. */
  type ParamMap = es: seq<Entry> | SortedByKey(es) witness []

  /** Sorting by key gives an ordered permutation. */
  lemma SortEntriesSorts(es: seq<Entry>)
    ensures SortedByKey(Sort(EntryLe, es))
    ensures multiset(Sort(EntryLe, es)) == multiset(es)
  {
    EntryOrder();
    SortSorts(EntryLe, es);
    var r := Sort(EntryLe, es);
    forall i, j | 0 <= i < j < |r|
      ensures KeyLe(r[i].key, r[j].key)
    {
      assert EntryLe(r[i], r[j]);
    }
  }

  /** Sorted input comes back unchanged, repeated keys included. */
  lemma SortEntriesSorted(es: seq<Entry>)
    requires SortedByKey(es)
    ensures Sort(EntryLe, es) == es
  {
    SortOrdered(EntryLe, es);
  }

  function NewMap(es: seq<Entry>): (p: ParamMap)
    ensures multiset(p) == multiset(es)
  {
    SortEntriesSorts(es);
    Sort(EntryLe, es)
  }

  /** Two lists of entries make one map exactly when they list the same values under each key, in the same order. */
  lemma SameMapIff(es: seq<Entry>, fs: seq<Entry>)
    ensures NewMap(es) == NewMap(fs) <==> SameByKey(EntryKey, es, fs)
  {
    EntriesByKey();
    SortSameIff(EntryLe, EntryKey, es, fs);
  }

  /** With distinct keys the order of insertion does not matter. */
  lemma InsertionOrderIrrelevant(es: seq<Entry>, fs: seq<Entry>)
    requires DistinctKeys(EntryKey, es) && multiset(es) == multiset(fs)
    ensures NewMap(es) == NewMap(fs)
  {
    EntriesByKey();
    PermutationSorts(EntryLe, EntryKey, es, fs);
  }

  /** A map lists its keys in lexicographic order, and the values of one key as they were inserted. */
  lemma MapInOrder(es: seq<Entry>, i: nat, j: nat)
    requires i < j < |NewMap(es)|
    ensures var p := NewMap(es); p[i].key <= p[j].key || exists d: nat :: LessAt(p[i].key, p[j].key, d)
    ensures SameByKey(EntryKey, NewMap(es), es)
  {
    var p := NewMap(es);
    KeyLeIff(p[i].key, p[j].key);
    EntriesByKey();
    forall k
      ensures OfKey(EntryKey, k, NewMap(es)) == OfKey(EntryKey, k, es)
    {
      SortStable(EntryLe, EntryKey, k, es);
    }
  }

  function CanonParams(p: ParamMap): (c: ParamMap)
    ensures |c| == |p|
    ensures forall i :: 0 <= i < |p| ==> c[i] == Entry(p[i].key, CanonValue(p[i].value))
    ensures p == [] <==> c == []
  {
    Map(CanonEntry, p)
  }

  function CanonEntry(e: Entry): Entry {
    Entry(e.key, CanonValue(e.value))
  }

  lemma CanonParamsIdempotent(p: ParamMap)
    ensures CanonParams(CanonParams(p)) == CanonParams(p)
  {
    forall i | 0 <= i < |p|
      ensures CanonParams(CanonParams(p))[i] == CanonParams(p)[i]
    {
      CanonValueIdempotent(p[i].value);
    }
  }

  // ---- tokens ----

  function ValueToken(v: ParamValue): string {
    match v
    case Int(i) => "i" + PrintInt(i)
    case Float(bits) => "f" + PrintHex(FloatKey(bits), 16)
    case Bool(b) => "b" + if b then "true" else "false"
    case Str(s) => "s" + Escape(s)
  }

  function ValueFromToken(tok: string): Option<ParamValue> {
    if tok == [] then None
    else
      var rest := tok[1..];
      match tok[0]
      case 'i' => (match ParseSigned(rest, -TWO_TO_63, TWO_TO_63) case None => None case Some(i) => Some(Int(i)))
      case 'f' => (match ParseHex(rest, TWO_TO_64) case None => None case Some(b) => Some(Float(b)))
      case 'b' => if rest == "true" then Some(Bool(true)) else if rest == "false" then Some(Bool(false)) else None
      case 's' => Some(Str(Unescape(rest)))
      case _ => None
  }

  function EntryToken(e: Entry): string {
    Escape(e.key) + ['='] + ValueToken(e.value)
  }

  function ParamsToken(p: ParamMap): string {
    Join(Map(EntryToken, p), ';')
  }

  function EntryFromToken(t: string): Option<Entry> {
    match SplitOnce(t, '=')
    case None => None
    case Some((k, v)) =>
      match ValueFromToken(v)
      case None => None
      case Some(value) => Some(Entry(Unescape(k), value))
  }

  function EntriesFromTokens(ts: seq<string>): Option<seq<Entry>> {
    if ts == [] then Some([])
    else match EntryFromToken(ts[0])
      case None => None
      case Some(e) =>
        match EntriesFromTokens(ts[1..])
        case None => None
        case Some(es) => Some([e] + es)
  }

  function ParamsFromToken(s: string): Option<ParamMap> {
    if s == [] then Some([])
    else match EntriesFromTokens(Split(s, ';'))
      case None => None
      case Some(es) => Some(NewMap(es))
  }

  /** A value's token decodes to the value, up to the collapse of NaNs, and holds no separator. */
  lemma ValueTokenRoundTrip(v: ParamValue)
    ensures ValueFromToken(ValueToken(v)) == Some(CanonValue(v))
    ensures ';' !in ValueToken(v) && '=' !in ValueToken(v) && '|' !in ValueToken(v)
  {
    var tok := ValueToken(v);
    match v
    case Int(i) =>
      PrintIntRoundTrip(i, -TWO_TO_63, TWO_TO_63);
      assert tok[1..] == PrintInt(i);
    case Float(bits) =>
      PrintHex64RoundTrip(FloatKey(bits));
      assert tok[1..] == PrintHex(FloatKey(bits), 16);
    case Bool(b) =>
      assert tok[1..] == if b then "true" else "false";
    case Str(s) =>
      EscapeRoundTrip(s);
      EscapeClean(s);
      assert tok[1..] == Escape(s);
  }

  lemma EntryTokenRoundTrip(e: Entry)
    ensures EntryFromToken(EntryToken(e)) == Some(Entry(e.key, CanonValue(e.value)))
    ensures ';' !in EntryToken(e) && '|' !in EntryToken(e) && EntryToken(e) != []
  {
    EscapeRoundTrip(e.key);
    EscapeClean(e.key);
    ValueTokenRoundTrip(e.value);
    SplitOnceJoined(Escape(e.key), '=', ValueToken(e.value));
  }

  lemma EntriesStep(t: string, ts: seq<string>, e: Entry, es: seq<Entry>)
    requires EntryFromToken(t) == Some(e) && EntriesFromTokens(ts) == Some(es)
    ensures EntriesFromTokens([t] + ts) == Some([e] + es)
  {
    assert ([t] + ts)[0] == t && ([t] + ts)[1..] == ts;
  }

  lemma {:induction false} EntryTokensRoundTrip(es: seq<Entry>)
    ensures EntriesFromTokens(Map(EntryToken, es)) == Some(Map(CanonEntry, es))
  {
    if es != [] {
      EntryTokenRoundTrip(es[0]);
      EntryTokensRoundTrip(es[1..]);
      MapFirst(EntryToken, es);
      MapFirst(CanonEntry, es);
      EntriesStep(EntryToken(es[0]), Map(EntryToken, es[1..]), CanonEntry(es[0]), Map(CanonEntry, es[1..]));
    }
  }

  lemma {:induction false} JoinClean(parts: seq<string>, c: char, d: char)
    requires d != c
    requires forall i :: 0 <= i < |parts| ==> d !in parts[i]
    ensures d !in Join(parts, c)
  {
    if |parts| > 1 {
      JoinClean(parts[1..], c, d);
    }
  }

  /** A map's token decodes to the map, up to the collapse of NaNs. */
  lemma ParamsTokenRoundTrip(p: ParamMap)
    ensures ParamsFromToken(ParamsToken(p)) == Some(CanonParams(p))
    ensures '|' !in ParamsToken(p)
    ensures p != [] ==> ParamsToken(p) != []
  {
    var ts := Map(EntryToken, p);
    forall i | 0 <= i < |ts|
      ensures ';' !in ts[i] && '|' !in ts[i] && ts[i] != []
    {
      EntryTokenRoundTrip(p[i]);
    }
    JoinClean(ts, ';', '|');
    if p != [] {
      SplitJoin(ts, ';');
      EntryTokensRoundTrip(p);
      SortEntriesSorted(Map(CanonEntry, p));
      assert Map(CanonEntry, p) == CanonParams(p);
    }
  }

  /** Maps that differ in more than NaN payloads have different tokens. */
  lemma ParamsTokenInjective(p: ParamMap, q: ParamMap)
    ensures ParamsToken(p) == ParamsToken(q) <==> CanonParams(p) == CanonParams(q)
  {
    ParamsTokenRoundTrip(p);
    ParamsTokenRoundTrip(q);
    if CanonParams(p) == CanonParams(q) {
      forall i | 0 <= i < |p|
        ensures Map(EntryToken, p)[i] == Map(EntryToken, q)[i]
      {
        assert CanonParams(p)[i] == CanonParams(q)[i];
        CanonSameToken(p[i].value, q[i].value);
      }
      assert |p| == |CanonParams(p)| == |CanonParams(q)| == |q|;
      assert Map(EntryToken, p) == Map(EntryToken, q);
    }
  }

  lemma CanonSameToken(v: ParamValue, w: ParamValue)
    requires CanonValue(v) == CanonValue(w)
    ensures ValueToken(v) == ValueToken(w)
  {
  }
}
