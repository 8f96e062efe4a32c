/** Splitting input into units of work: blind partitions resolved at read time, and chunked datasets. */
module Partitions {
  import opened Wrappers

  /** A half-open entry range, or a step of a file whose length is not known yet. */
  datatype Partition = Partition(
    uri: string,
    tree: string,
    entryStart: int,
    entryStop: int,
    blindStep: Option<int>,
    blindNSteps: Option<int>)
  {
    function NEntries(): nat {
      if entryStop > entryStart then entryStop - entryStart else 0
    }

    predicate Holds(entry: int) {
      entryStart <= entry < entryStop
    }
  }

  datatype PartitionError = ValueError | ZeroDivisionError

  function Blind(uri: string, tree: string, step: int, nSteps: int): Result<Partition, PartitionError> {
    if nSteps < 1 || !(0 <= step < nSteps) then Err(ValueError)
    else Ok(Partition(uri, tree, 0, 0, Some(step), Some(nSteps)))
  }

  /** Division that rounds toward minus infinity, for either sign of the divisor. */
  function FloorDiv(a: int, b: int): (q: int)
    requires b != 0
    ensures b > 0 ==> b * q <= a < b * q + b
    ensures b < 0 ==> b * q + b < a <= b * q
  {
    if b > 0 then a / b else (-a) / (-b)
  }

  /** A partition that is not blind is its own resolution. */
  function Resolve(p: Partition, numEntries: int): Result<Partition, PartitionError> {
    match (p.blindStep, p.blindNSteps)
    case (Some(step), Some(n)) =>
      if n == 0 then Err(ZeroDivisionError)
      else Ok(Partition(p.uri, p.tree, FloorDiv(step * numEntries, n), FloorDiv((step + 1) * numEntries, n), None, None))
    case _ => Ok(p)
  }

  /** Step `i` of `n` over a file of `numEntries` entries. */
  function StepOf(uri: string, tree: string, numEntries: nat, n: nat, i: nat): (p: Partition)
    requires i < n
    ensures Blind(uri, tree, i, n).Ok? && Resolve(Blind(uri, tree, i, n).value, numEntries) == Ok(p)
  {
    Resolve(Blind(uri, tree, i, n).value, numEntries).value
  }

  // ---- blind steps tile the file ----

  /** Where step `i` starts. */
  function Cut(numEntries: nat, n: nat, i: nat): (c: int)
    requires n > 0
    ensures n * c <= i * numEntries < n * c + n
  {
    FloorDiv(i * numEntries, n)
  }

  lemma MulGap(n: int, k: int)
    requires n > 0
    ensures k >= 1 ==> n * k >= n
    ensures k <= 0 ==> n * k <= 0
  {
    if k >= 1 {
      assert n * k == n + n * (k - 1);
    }
  }

  lemma Distribute(n: int, a: int, b: int)
    ensures n * (a - b) == n * a - n * b && n * (a + b) == n * a + n * b
  {
  }

  lemma Squeeze(n: nat, a: int, b: int)
    requires n > 0 && n * a < n * b + n
    ensures a <= b
  {
    Distribute(n, a, b);
    MulGap(n, a - b);
  }

  lemma CutEnds(numEntries: nat, n: nat)
    requires n > 0
    ensures Cut(numEntries, n, 0) == 0 && Cut(numEntries, n, n) == numEntries
  {
    Squeeze(n, Cut(numEntries, n, 0), 0);
    Squeeze(n, 0, Cut(numEntries, n, 0));
    Squeeze(n, Cut(numEntries, n, n), numEntries);
    Squeeze(n, numEntries, Cut(numEntries, n, n));
  }

  /** Each step gets the rounded-down or the rounded-up share. */
  lemma CutStep(numEntries: nat, n: nat, i: nat)
    requires n > 0
    ensures numEntries / n <= Cut(numEntries, n, i + 1) - Cut(numEntries, n, i) <= (numEntries + n - 1) / n
  {
    var c, d, low, high := Cut(numEntries, n, i), Cut(numEntries, n, i + 1), numEntries / n, (numEntries + n - 1) / n;
    assert (i + 1) * numEntries == i * numEntries + numEntries;
    assert n * low <= numEntries <= n * high;
    assert n * (c + low) == n * c + n * low && n * (c + high) == n * c + n * high;
    Squeeze(n, c + low, d);
    assert n * (d - c - high) == n * d - n * (c + high);
    Squeeze(n, d, c + high);
  }

  /** The steps of a blind file are contiguous, cover it exactly, and have the rounded-down or rounded-up
      size. */
  lemma BlindStepsTile(uri: string, tree: string, numEntries: nat, n: nat, i: nat)
    requires i < n
    ensures var p := StepOf(uri, tree, numEntries, n, i);
      && (i == 0 ==> p.entryStart == 0)
      && (i == n - 1 ==> p.entryStop == numEntries)
      && (i < n - 1 ==> p.entryStop == StepOf(uri, tree, numEntries, n, i + 1).entryStart)
      && (p.NEntries() == numEntries / n || p.NEntries() == (numEntries + n - 1) / n)
      && p.entryStart <= p.entryStop
  {
    CutEnds(numEntries, n);
    CutStep(numEntries, n, i);
    CeilFloor(numEntries, n);
  }

  lemma CeilFloor(numEntries: nat, n: nat)
    requires n > 0
    ensures numEntries / n <= (numEntries + n - 1) / n <= numEntries / n + 1
  {
    var low, high := numEntries / n, (numEntries + n - 1) / n;
    assert n * low <= numEntries < n * low + n;
    assert n * high <= numEntries + n - 1 < n * high + n;
    Squeeze(n, low, high);
    assert n * (low + 1) == n * low + n;
    Squeeze(n, high, low + 1);
  }

  lemma {:induction false} CutMonotone(numEntries: nat, n: nat, i: nat, j: nat)
    requires n > 0 && i <= j
    ensures Cut(numEntries, n, i) <= Cut(numEntries, n, j)
    decreases j
  {
    if i < j {
      CutMonotone(numEntries, n, i, j - 1);
      CutStep(numEntries, n, j - 1);
    }
  }

  lemma {:induction false} StepHolding(numEntries: nat, n: nat, entry: nat, k: nat) returns (i: nat)
    requires n > 0 && k <= n && entry < Cut(numEntries, n, k)
    ensures i < k && Cut(numEntries, n, i) <= entry < Cut(numEntries, n, i + 1)
    decreases k
  {
    CutEnds(numEntries, n);
    if Cut(numEntries, n, k - 1) <= entry {
      i := k - 1;
    } else {
      i := StepHolding(numEntries, n, entry, k - 1);
    }
  }

  /** Every entry is read by exactly one step. */
  lemma EveryEntryOnce(uri: string, tree: string, numEntries: nat, n: nat, entry: nat) returns (i: nat)
    requires n > 0 && entry < numEntries
    ensures i < n && StepOf(uri, tree, numEntries, n, i).Holds(entry)
    ensures forall j: nat :: j < n && StepOf(uri, tree, numEntries, n, j).Holds(entry) ==> j == i
  {
    CutEnds(numEntries, n);
    i := StepHolding(numEntries, n, entry, n);
    forall j: nat | j < n && StepOf(uri, tree, numEntries, n, j).Holds(entry)
      ensures j == i
    {
      if j < i {
        CutMonotone(numEntries, n, j + 1, i);
      } else if i < j {
        CutMonotone(numEntries, n, i + 1, j);
      }
    }
  }

  // ---- chunks of datasets ----

  datatype Dataset = Dataset(uri: string, nEvents: int, tree: string, name: string)

  function Events(ds: Dataset): nat {
    if ds.nEvents > 0 then ds.nEvents else 0
  }

  function Min(a: int, b: int): int {
    if a <= b then a else b
  }

  /** How many chunks: the rounded-up share. */
  function ChunkCount(ds: Dataset, c: nat): nat
    requires c > 0
  {
    (Events(ds) + c - 1) / c
  }

  function Chunk(ds: Dataset, c: nat, j: nat): Partition {
    Partition(ds.uri, ds.tree, c * j, Min(c * (j + 1), ds.nEvents), None, None)
  }

  function Chunks(ds: Dataset, c: nat): (ps: seq<Partition>)
    requires c > 0
  {
    seq(ChunkCount(ds, c), (j: nat) => Chunk(ds, c, j))
  }

  /** A chunk boundary is below the number of events exactly before the last chunk ends. */
  lemma ChunkBelow(ds: Dataset, c: nat, j: nat)
    requires c > 0
    ensures c * j < Events(ds) <==> j < ChunkCount(ds, c)
    ensures c * (j + 1) == c * j + c
  {
    var q := ChunkCount(ds, c);
    RoundedUp(Events(ds), c);
    Distribute(c, j, q);
    Distribute(c, j, 1);
    MulGap(c, q - j);
    Distribute(c, q, j);
    if c * j < Events(ds) {
      Squeeze(c, j + 1, q);
    }
  }

  lemma RoundedUp(n: nat, c: nat)
    requires c > 0
    ensures var q := (n + c - 1) / c; n <= c * q < n + c
  {
  }

  /** Where the `n`-th chunk starts, or the end of the data. */
  function ChunkStart(ds: Dataset, c: nat, n: nat): int
    requires c > 0
  {
    if n < ChunkCount(ds, c) then c * n else Events(ds)
  }

  lemma ChunkStep(ds: Dataset, c: nat, n: nat)
    requires c > 0
    ensures ChunkStart(ds, c, 0) == 0
    ensures ChunkStart(ds, c, n) < ds.nEvents <==> n < ChunkCount(ds, c)
    ensures n < ChunkCount(ds, c) ==>
      var stop := Min(ChunkStart(ds, c, n) + c, ds.nEvents);
      stop == ChunkStart(ds, c, n + 1) && stop > ChunkStart(ds, c, n)
      && Chunk(ds, c, n) == Partition(ds.uri, ds.tree, ChunkStart(ds, c, n), stop, None, None)
  {
    ChunkBelow(ds, c, 0);
    ChunkBelow(ds, c, n);
    ChunkBelow(ds, c, n + 1);
  }

  method PartitionDataset(ds: Dataset, chunkSize: int) returns (r: Result<seq<Partition>, PartitionError>)
    ensures chunkSize <= 0 ==> r == Err(ValueError)
    ensures chunkSize > 0 ==> r == Ok(Chunks(ds, chunkSize))
  {
    if chunkSize <= 0 {
      return Err(ValueError);
    }
    var out: seq<Partition> := [];
    var start := 0;
    ChunkStep(ds, chunkSize, 0);
    while start < ds.nEvents
      invariant |out| <= ChunkCount(ds, chunkSize) && out == Chunks(ds, chunkSize)[..|out|]
      invariant start == ChunkStart(ds, chunkSize, |out|)
      decreases ds.nEvents - start
    {
      ChunkStep(ds, chunkSize, |out|);
      var stop := Min(start + chunkSize, ds.nEvents);
      out := out + [Partition(ds.uri, ds.tree, start, stop, None, None)];
      start := stop;
    }
    ChunkStep(ds, chunkSize, |out|);
    assert Chunks(ds, chunkSize)[..|Chunks(ds, chunkSize)|] == Chunks(ds, chunkSize);
    r := Ok(out);
  }

  lemma ChunkFacts(ds: Dataset, c: nat, j: nat)
    requires c > 0 && j < ChunkCount(ds, c)
    ensures 1 <= Chunk(ds, c, j).NEntries() <= c
    ensures forall e: nat :: Chunk(ds, c, j).Holds(e) <==> c * j <= e < c * j + c && e < Events(ds)
  {
    ChunkBelow(ds, c, j);
  }

  lemma QuotientIs(e: nat, c: nat, j: nat)
    requires c > 0
    ensures c * j <= e < c * j + c <==> j == e / c
  {
    var q := e / c;
    assert c * q <= e < c * q + c;
    if c * j <= e < c * j + c {
      Squeeze(c, j, q);
      Squeeze(c, q, j);
    }
  }

  /** Every event of a dataset is in exactly one chunk, and no chunk is empty or longer than asked. */
  lemma ChunksTile(ds: Dataset, c: nat, e: nat)
    requires c > 0 && e < Events(ds)
    ensures e / c < |Chunks(ds, c)|
    ensures forall j: nat :: j < |Chunks(ds, c)| ==> (Chunks(ds, c)[j].Holds(e) <==> j == e / c)
    ensures forall j: nat :: j < |Chunks(ds, c)| ==> 1 <= Chunks(ds, c)[j].NEntries() <= c
  {
    QuotientIs(e, c, e / c);
    ChunkBelow(ds, c, e / c);
    forall j: nat | j < |Chunks(ds, c)|
      ensures 1 <= Chunks(ds, c)[j].NEntries() <= c
      ensures Chunks(ds, c)[j].Holds(e) <==> j == e / c
    {
      ChunkFacts(ds, c, j);
      QuotientIs(e, c, j);
    }
  }

  function AllChunks(datasets: seq<Dataset>, c: nat): seq<Partition>
    requires c > 0
  {
    if datasets == [] then []
    else AllChunks(datasets[..|datasets| - 1], c) + Chunks(datasets[|datasets| - 1], c)
  }

  /** The size is only looked at if there is a dataset to split. */
  method PartitionDatasets(datasets: seq<Dataset>, chunkSize: int) returns (r: Result<seq<Partition>, PartitionError>)
    ensures chunkSize <= 0 && datasets != [] ==> r == Err(ValueError)
    ensures datasets == [] ==> r == Ok([])
    ensures chunkSize > 0 ==> r == Ok(AllChunks(datasets, chunkSize))
  {
    var out: seq<Partition> := [];
    for i := 0 to |datasets|
      invariant i > 0 ==> chunkSize > 0
      invariant if chunkSize > 0 then out == AllChunks(datasets[..i], chunkSize) else out == []
    {
      var chunks := PartitionDataset(datasets[i], chunkSize);
      if chunks.Err? {
        return Err(chunks.error);
      }
      assert datasets[..i + 1][..i] == datasets[..i];
      out := out + chunks.value;
    }
    assert datasets[..|datasets|] == datasets;
    r := Ok(out);
  }

  function TotalEntries(ps: seq<Partition>): nat {
    if ps == [] then 0 else TotalEntries(ps[..|ps| - 1]) + ps[|ps| - 1].NEntries()
  }

  function TotalEvents(datasets: seq<Dataset>): nat {
    if datasets == [] then 0 else TotalEvents(datasets[..|datasets| - 1]) + Events(datasets[|datasets| - 1])
  }

  lemma {:induction false} TotalEntriesConcat(ps: seq<Partition>, qs: seq<Partition>)
    ensures TotalEntries(ps + qs) == TotalEntries(ps) + TotalEntries(qs)
    decreases |qs|
  {
    if qs == [] {
      assert ps + qs == ps;
    } else {
      assert (ps + qs)[..|ps + qs| - 1] == ps + qs[..|qs| - 1];
      TotalEntriesConcat(ps, qs[..|qs| - 1]);
    }
  }

  lemma {:induction false} ChunksTotal(ds: Dataset, c: nat, n: nat)
    requires c > 0 && n <= |Chunks(ds, c)|
    ensures TotalEntries(Chunks(ds, c)[..n]) == Min(c * n, Events(ds))
  {
    if n > 0 {
      ChunksTotal(ds, c, n - 1);
      ChunkBelow(ds, c, n - 1);
      assert Chunks(ds, c)[..n][..n - 1] == Chunks(ds, c)[..n - 1];
      assert Chunks(ds, c)[..n][n - 1] == Chunk(ds, c, n - 1);
    }
  }

  /** However datasets are cut, no event is lost or counted twice. */
  lemma {:induction false} EventsConserved(datasets: seq<Dataset>, c: nat)
    requires c > 0
    ensures TotalEntries(AllChunks(datasets, c)) == TotalEvents(datasets)
  {
    if datasets != [] {
      var init, ds := datasets[..|datasets| - 1], datasets[|datasets| - 1];
      EventsConserved(init, c);
      TotalEntriesConcat(AllChunks(init, c), Chunks(ds, c));
      var n := |Chunks(ds, c)|;
      ChunksTotal(ds, c, n);
      ChunkBelow(ds, c, n);
      assert Chunks(ds, c)[..n] == Chunks(ds, c);
    }
  }
}
