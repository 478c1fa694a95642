/** Traffic metering: counters accumulate per key in a map on the heap; a drain swaps the map for a
    new one and then reads the old one without the lock. */
module Traffic {
  import opened Text

  datatype Key = Key(accessKeyId: string, bucket: string, verb: string)

  datatype Count = Count(requests: int, bytesIn: int, bytesOut: int)

  datatype Sample = Sample(key: Key, count: Count)

  type Totals = map<Key, Count>

  /** What is counted. */
  datatype Metric = Requests | BytesIn | BytesOut

  function Part(c: Count, m: Metric): int {
    match m
    case Requests => c.requests
    case BytesIn => c.bytesIn
    case BytesOut => c.bytesOut
  }

  const ZERO := Count(0, 0, 0)

  function Plus(a: Count, b: Count): Count {
    Count(a.requests + b.requests, a.bytesIn + b.bytesIn, a.bytesOut + b.bytesOut)
  }

  function Entry(t: Totals, k: Key): Count {
    if k in t then t[k] else ZERO
  }

  /** One request more. */
  function AddTo(t: Totals, k: Key, bytesIn: int, bytesOut: int): Totals {
    t[k := Plus(Entry(t, k), Count(1, bytesIn, bytesOut))]
  }

  function Get(t: Totals, k: Key, m: Metric): int {
    if k in t then Part(t[k], m) else 0
  }

  /** What a batch of samples adds up to for a key. */
  function Total(samples: seq<Sample>, k: Key, m: Metric): int {
    if samples == [] then 0
    else
      var last := samples[|samples| - 1];
      Total(samples[..|samples| - 1], k, m) + if last.key == k then Part(last.count, m) else 0
  }

  lemma {:induction false} TotalAppends(a: seq<Sample>, b: seq<Sample>, k: Key, m: Metric)
    ensures Total(a + b, k, m) == Total(a, k, m) + Total(b, k, m)
  {
    if b == [] {
      assert a + b == a;
    } else {
      assert (a + b)[..|a + b| - 1] == a + b[..|b| - 1];
      TotalAppends(a, b[..|b| - 1], k, m);
    }
  }

  // ---- Interleavings ----

  /** A drain under way: the swapped-out counters not read yet, and the samples so far. */
  datatype Batch = Batch(rest: Totals, out: seq<Sample>)

  /** The live counters, the flusher's drain if one is under way, and what became of the batches. */
  datatype World = World(live: Totals, drain: Option<Batch>, flushed: seq<Sample>, dropped: seq<Sample>)

  datatype Step =
    | Add(key: Key, bytesIn: int, bytesOut: int)
    | Swap
    | Collect(key: Key)
    | Flush(ok: bool)

  /** One counter of the swapped-out map is read. */
  function Read(b: Batch, x: Key): Batch
    requires x in b.rest
  {
    Batch(b.rest - {x}, b.out + [Sample(x, b.rest[x])])
  }

  function Next(s: World, a: Step): World {
    match a
    case Add(k, bytesIn, bytesOut) => s.(live := AddTo(s.live, k, bytesIn, bytesOut))
    case Swap => if s.drain.Some? then s else s.(live := map[], drain := Some(Batch(s.live, [])))
    case Collect(k) =>
      if s.drain.Some? && k in s.drain.value.rest
      then s.(drain := Some(Read(s.drain.value, k)))
      else s
    case Flush(ok) =>
      if s.drain.None? || s.drain.value.rest != map[] then s
      else if s.drain.value.out == [] then s.(drain := None)
      else if ok then s.(drain := None, flushed := s.flushed + s.drain.value.out)
      else s.(drain := None, dropped := s.dropped + s.drain.value.out)
  }

  function Run(s: World, steps: seq<Step>): World
    decreases |steps|
  {
    if steps == [] then s else Run(Next(s, steps[0]), steps[1..])
  }

  /** What a drain under way holds for a key: unread and read. */
  function Held(b: Batch, k: Key, m: Metric): int {
    Get(b.rest, k, m) + Total(b.out, k, m)
  }

  /** Everything the world holds or has passed on for a key. */
  function Balance(s: World, k: Key, m: Metric): int {
    Get(s.live, k, m) + (if s.drain.Some? then Held(s.drain.value, k, m) else 0) + Total(s.flushed, k, m) + Total(s.dropped, k, m)
  }

  function AddedBy(a: Step, k: Key, m: Metric): int {
    if a.Add? && a.key == k then Part(Count(1, a.bytesIn, a.bytesOut), m) else 0
  }

  /** The traffic of a key that was added in a run. */
  function Added(steps: seq<Step>, k: Key, m: Metric): int
    decreases |steps|
  {
    if steps == [] then 0 else AddedBy(steps[0], k, m) + Added(steps[1..], k, m)
  }

  lemma TotalOfOneMore(out: seq<Sample>, x: Sample, k: Key, m: Metric)
    ensures Total(out + [x], k, m) == Total(out, k, m) + if x.key == k then Part(x.count, m) else 0
  {
    assert (out + [x])[..|out|] == out;
  }

  lemma AddConserves(s: World, x: Key, i: int, o: int, k: Key, m: Metric)
    ensures Balance(Next(s, Add(x, i, o)), k, m) == Balance(s, k, m) + AddedBy(Add(x, i, o), k, m)
  {
    assert Get(AddTo(s.live, x, i, o), k, m) == Get(s.live, k, m) + AddedBy(Add(x, i, o), k, m);
  }

  lemma ReadHolds(b: Batch, x: Key, k: Key, m: Metric)
    requires x in b.rest
    ensures Held(Read(b, x), k, m) == Held(b, k, m)
  {
    TotalOfOneMore(b.out, Sample(x, b.rest[x]), k, m);
    GetWithout(b.rest, x, k, m);
  }

  lemma CollectConserves(s: World, x: Key, k: Key, m: Metric)
    requires s.drain.Some? && x in s.drain.value.rest
    ensures Balance(Next(s, Collect(x)), k, m) == Balance(s, k, m)
  {
    ReadHolds(s.drain.value, x, k, m);
  }

  lemma GetWithout(t: Totals, x: Key, k: Key, m: Metric)
    requires x in t
    ensures Get(t, k, m) == Get(t - {x}, k, m) + if x == k then Part(t[x], m) else 0
  {
    if x == k {
      assert k !in t - {x};
    } else {
      assert k in t - {x} <==> k in t;
    }
  }

  lemma FlushConserves(s: World, ok: bool, k: Key, m: Metric)
    requires s.drain.Some? && s.drain.value.rest == map[]
    ensures Balance(Next(s, Flush(ok)), k, m) == Balance(s, k, m)
  {
    TotalAppends(s.flushed, s.drain.value.out, k, m);
    TotalAppends(s.dropped, s.drain.value.out, k, m);
  }

  lemma StepConserves(s: World, a: Step, k: Key, m: Metric)
    ensures Balance(Next(s, a), k, m) == Balance(s, k, m) + AddedBy(a, k, m)
  {
    match a
    case Add(x, i, o) => AddConserves(s, x, i, o, k, m);
    case Swap =>
    case Collect(x) =>
      if s.drain.Some? && x in s.drain.value.rest {
        CollectConserves(s, x, k, m);
      }
    case Flush(ok) =>
      if s.drain.Some? && s.drain.value.rest == map[] {
        FlushConserves(s, ok, k, m);
      }
  }

  lemma {:induction false} RunConserves(s: World, steps: seq<Step>, k: Key, m: Metric)
    ensures Balance(Run(s, steps), k, m) == Balance(s, k, m) + Added(steps, k, m)
    decreases |steps|
  {
    if steps != [] {
      StepConserves(s, steps[0], k, m);
      RunConserves(Next(s, steps[0]), steps[1..], k, m);
    }
  }

  /** For every interleaving of requests, drains and flush outcomes: what was added for a key (its
      requests and its bytes in either direction) is what was flushed, plus what went in dropped
      batches, plus what is still in memory. */
  lemma TrafficIsConserved(steps: seq<Step>, k: Key, m: Metric)
    ensures var s := Run(World(map[], None, [], []), steps);
      && Added(steps, k, m) == Balance(s, k, m)
      && (s.live == map[] && s.drain == None ==> Added(steps, k, m) == Total(s.flushed, k, m) + Total(s.dropped, k, m))
  {
    RunConserves(World(map[], None, [], []), steps, k, m);
  }

  /** A finished batch goes where the flush outcome says, whole. */
  lemma FlushMeaning(s: World, ok: bool)
    requires s.drain.Some? && s.drain.value.rest == map[]
    ensures var s', out := Next(s, Flush(ok)), s.drain.value.out;
      && s'.live == s.live && s'.drain == None
      && s'.flushed == s.flushed + (if ok then out else []) && s'.dropped == s.dropped + (if ok then [] else out)
  {
  }

  /** Only failed flushes drop traffic, and only successful ones flush it. */
  lemma {:induction false} OnlyFailedFlushesDrop(s: World, steps: seq<Step>, ok: bool)
    requires forall i :: 0 <= i < |steps| && steps[i].Flush? ==> steps[i].ok == ok
    ensures if ok then Run(s, steps).dropped == s.dropped else Run(s, steps).flushed == s.flushed
    decreases |steps|
  {
    if steps != [] {
      OnlyFailedFlushesDrop(Next(s, steps[0]), steps[1..], ok);
    }
  }

  // ---- The heap ----

  lemma IsAddTo(t: Totals, t': Totals, k: Key, bytesIn: int, bytesOut: int)
    requires t'.Keys == t.Keys + {k} && t'[k] == Plus(Entry(t, k), Count(1, bytesIn, bytesOut))
    requires forall j :: j in t && j != k ==> t'[j] == t[j]
    ensures t' == AddTo(t, k, bytesIn, bytesOut)
  {
  }

  class Counter {
    var value: Count

    constructor ()
      ensures value == ZERO
    {
      value := ZERO;
    }
  }

  /** A map of counters, shared by reference; `cells` are its counters. */
  class CounterMap {
    var entries: map<Key, Counter>
    ghost var cells: set<Counter>

    constructor ()
      ensures entries == map[] && cells == {}
    {
      entries, cells := map[], {};
    }

    /** No two keys share a counter. */
    ghost predicate Valid()
      reads this
    {
      && (forall k :: k in entries ==> entries[k] in cells)
      && (forall j, k :: j in entries && k in entries && j != k ==> entries[j] != entries[k])
    }

    /** The counter of a key, created when missing. */
    method CounterFor(k: Key) returns (c: Counter)
      requires Valid()
      modifies this
      ensures Valid() && entries.Keys == old(entries.Keys) + {k} && entries[k] == c
      ensures forall j :: j in old(entries) ==> entries[j] == old(entries)[j]
      ensures k !in old(entries) ==> fresh(c) && c.value == ZERO
      ensures cells == old(cells) + {c}
    {
      if k !in entries {
        c := new Counter();
        entries := entries[k := c];
      } else {
        c := entries[k];
      }
      cells := cells + {c};
    }

    function Sum(): (t: Totals)
      requires Valid()
      reads this, cells
    {
      map k | k in entries :: entries[k].value
    }
  }

  datatype Arrival = Arrival(key: Key, bytesIn: int, bytesOut: int)

  function AddAll(t: Totals, arrivals: seq<Arrival>): Totals {
    if arrivals == [] then t
    else
      var a := arrivals[|arrivals| - 1];
      AddTo(AddAll(t, arrivals[..|arrivals| - 1]), a.key, a.bytesIn, a.bytesOut)
  }

  lemma {:induction false} AddAllAppends(t: Totals, a: seq<Arrival>, b: seq<Arrival>)
    ensures AddAll(t, a + b) == AddAll(AddAll(t, a), b)
  {
    if b == [] {
      assert a + b == a;
    } else {
      assert (a + b)[..|a + b| - 1] == a + b[..|b| - 1];
      AddAllAppends(t, a, b[..|b| - 1]);
    }
  }

  /** The samples add up to the totals of all keys but those in `rest`. */
  ghost predicate Accounted(samples: seq<Sample>, rest: set<Key>, totals: Totals) {
    forall k, m :: AccountedFor(samples, rest, totals, k, m)
  }

  ghost predicate AccountedFor(samples: seq<Sample>, rest: set<Key>, totals: Totals, k: Key, m: Metric) {
    Total(samples, k, m) == if k in rest then 0 else Get(totals, k, m)
  }

  lemma NothingAccounted(totals: Totals)
    ensures Accounted([], totals.Keys, totals)
  {
  }

  lemma AccountsOneMore(samples: seq<Sample>, rest: set<Key>, totals: Totals, x: Key)
    requires Accounted(samples, rest, totals) && x in rest && x in totals
    ensures Accounted(samples + [Sample(x, totals[x])], rest - {x}, totals)
  {
    var more := samples + [Sample(x, totals[x])];
    forall k, m ensures AccountedFor(more, rest - {x}, totals, k, m) {
      TotalOfOneMore(samples, Sample(x, totals[x]), k, m);
      assert AccountedFor(samples, rest, totals, k, m);
    }
  }

  class Aggregator {
    var counters: CounterMap

    constructor ()
      ensures counters.Valid() && counters.Sum() == map[] && fresh(counters)
    {
      counters := new CounterMap();
    }

    /** Counts one request. Only the current map and its counters change. */
    method Add(k: Key, bytesIn: int, bytesOut: int)
      requires counters.Valid()
      modifies counters, counters.cells
      ensures counters.Valid() && counters.Sum() == AddTo(old(counters.Sum()), k, bytesIn, bytesOut)
      ensures fresh(counters.cells - old(counters.cells))
    {
      ghost var before := counters.Sum();
      var c := counters.CounterFor(k);
      assert c.value == Entry(before, k);
      c.value := Plus(c.value, Count(1, bytesIn, bytesOut));
      IsAddTo(before, counters.Sum(), k, bytesIn, bytesOut);
    }

    /** Requests that arrive one after another. */
    method AddMany(arrivals: seq<Arrival>)
      requires counters.Valid()
      modifies counters, counters.cells
      ensures counters.Valid() && counters.Sum() == AddAll(old(counters.Sum()), arrivals)
      ensures fresh(counters.cells - old(counters.cells))
    {
      for i := 0 to |arrivals|
        invariant counters.Valid() && counters.Sum() == AddAll(old(counters.Sum()), arrivals[..i])
        invariant fresh(counters.cells - old(counters.cells))
      {
        Add(arrivals[i].key, arrivals[i].bytesIn, arrivals[i].bytesOut);
        assert arrivals[..i + 1][..i] == arrivals[..i];
      }
      assert arrivals[..|arrivals|] == arrivals;
    }

    /** Puts a new map in place of the current one. */
    method Swap() returns (swapped: CounterMap)
      modifies this
      ensures swapped == old(counters) && fresh(counters) && counters.entries == map[] && counters.cells == {}
    {
      swapped := counters;
      counters := new CounterMap();
    }

    /** Reads a swapped-out counter after further requests arrived: they did not touch it. */
    method ReadSwapped(swapped: CounterMap, k: Key, arrivals: seq<Arrival>) returns (sample: Sample)
      requires counters.Valid() && swapped.Valid() && k in swapped.entries
      requires swapped != counters && swapped.cells !! counters.cells
      modifies counters, counters.cells
      ensures counters.Valid() && counters.Sum() == AddAll(old(counters.Sum()), arrivals)
      ensures fresh(counters.cells - old(counters.cells))
      ensures sample == Sample(k, old(swapped.Sum())[k])
      ensures swapped.Valid() && swapped.Sum() == old(swapped.Sum()) && swapped.cells !! counters.cells
    {
      AddMany(arrivals);
      sample := Sample(k, swapped.entries[k].value);
    }

    /** Reads a swapped-out map while further requests arrive, `arrivals(i)` before the i-th read. */
    method ReadAll(swapped: CounterMap, arrivals: nat -> seq<Arrival>) returns (samples: seq<Sample>, late: seq<Arrival>)
      requires counters.Valid() && swapped.Valid() && swapped != counters && swapped.cells !! counters.cells
      modifies counters, counters.cells
      ensures Accounted(samples, {}, old(swapped.Sum()))
      ensures counters.Valid() && counters.Sum() == AddAll(old(counters.Sum()), late)
    {
      ghost var totals := swapped.Sum();
      var rest := swapped.entries.Keys;
      samples, late := [], [];
      assert rest == totals.Keys;
      NothingAccounted(totals);
      while rest != {}
        invariant rest <= totals.Keys && swapped.Valid() && swapped.Sum() == totals && Accounted(samples, rest, totals)
        invariant counters.Valid() && counters.Sum() == AddAll(old(counters.Sum()), late)
        invariant swapped.cells !! counters.cells && fresh(counters.cells - old(counters.cells))
        decreases |rest|
      {
        var k :| k in rest;
        AccountsOneMore(samples, rest, totals, k);
        AddAllAppends(old(counters.Sum()), late, arrivals(|samples|));
        var sample := ReadSwapped(swapped, k, arrivals(|samples|));
        late := late + arrivals(|samples|);
        samples := samples + [sample];
        rest := rest - {k};
      }
    }

    /** Swaps the counters out and reads them while requests arrive: the samples are exactly the old
        counters, and the new counters exactly the requests that arrived meanwhile. */
    method Drain(arrivals: nat -> seq<Arrival>) returns (samples: seq<Sample>, late: seq<Arrival>)
      requires counters.Valid()
      modifies this
      ensures Accounted(samples, {}, old(counters.Sum()))
      ensures counters.Valid() && fresh(counters) && counters.Sum() == AddAll(map[], late)
    {
      var swapped := Swap();
      samples, late := ReadAll(swapped, arrivals);
    }
  }
}
