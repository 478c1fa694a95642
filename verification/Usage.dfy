/** The storage series: interval arithmetic per database driver, the latest snapshot per bucket and
    interval, and the number of points. */
module Usage {
  import opened Text

  /** A snapshot; the time is in seconds since the epoch, with fractions. */
  datatype Snapshot = Snapshot(bucket: string, at: real, bytes: int, objects: int)

  // ---- Interval arithmetic ----

  /** Integer division as SQLite does it: towards zero. */
  function TruncDiv(a: int, b: int): int
    requires b > 0
  {
    if a >= 0 then a / b else -((-a) / b)
  }

  /** The interval of a time: the exact quotient rounded down, times the step. */
  function PostgresInterval(at: real, step: int): int
    requires step > 0
  {
    (at / step as real).Floor * step
  }

  /** The whole seconds divided in integers, times the step. */
  function SqliteInterval(at: real, step: int): int
    requires step > 0
  {
    TruncDiv(at.Floor, step) * step
  }

  lemma FloorBetween(x: real, k: int)
    requires k as real <= x < (k + 1) as real
    ensures x.Floor == k
  {
  }

  /** Rounding down to whole seconds first makes no difference. */
  lemma FloorOfQuotient(at: real, step: int)
    requires step > 0
    ensures (at / step as real).Floor == at.Floor / step
  {
    var n, s := at.Floor, step as real;
    var q := n / step;
    assert q * step <= n && n + 1 <= (q + 1) * step by {
      assert n == q * step + n % step;
      assert (q + 1) * step == q * step + step;
    }
    assert (q * step) as real <= at < ((q + 1) * step) as real;
    assert (q * step) as real == q as real * s && ((q + 1) * step) as real == (q + 1) as real * s;
    QuotientBetween(at, s, q);
    FloorBetween(at / s, q);
  }

  lemma QuotientBetween(x: real, s: real, q: int)
    requires s > 0.0 && q as real * s <= x < (q + 1) as real * s
    ensures q as real <= x / s < (q + 1) as real
  {
    var y := x / s;
    assert x == y * s;
    assert y < q as real ==> y * s < q as real * s;
    assert y >= (q + 1) as real ==> y * s >= (q + 1) as real * s;
  }

  /** The two drivers agree exactly on times from the epoch on, and before it on times whose whole
      seconds are a multiple of the step. */
  lemma DriversAgreeExactly(at: real, step: int)
    requires step > 0
    ensures PostgresInterval(at, step) == SqliteInterval(at, step) <==> at >= 0.0 || at.Floor % step == 0
  {
    FloorOfQuotient(at, step);
    var n := at.Floor;
    if n < 0 {
      NegativeQuotients(n, step);
      if n % step != 0 {
        assert (n / step + 1) * step == (n / step) * step + step;
      }
    }
  }

  lemma NegativeQuotients(n: int, step: int)
    requires step > 0 && n < 0
    ensures TruncDiv(n, step) == if n % step == 0 then n / step else n / step + 1
  {
    var q, r := n / step, n % step;
    assert n == q * step + r;
    if r == 0 {
      QuotientIs(-n, step, -q, 0);
    } else {
      assert -n == (-q - 1) * step + (step - r) by {
        assert (-q - 1) * step == -(q * step) - step;
      }
      QuotientIs(-n, step, -q - 1, step - r);
    }
  }

  lemma QuotientIs(n: int, step: int, q: int, r: int)
    requires step > 0 && n == q * step + r && 0 <= r < step
    ensures n / step == q
  {
    var d := n / step - q;
    assert n == (n / step) * step + n % step;
    assert d * step == r - n % step by {
      assert d * step == (n / step) * step - q * step;
    }
    assert (-d) * step == -(d * step);
    if d >= 1 {
      MulAtLeast(d, step);
    } else if d <= -1 {
      MulAtLeast(-d, step);
    }
  }

  lemma {:induction false} MulAtLeast(d: int, step: int)
    requires d >= 1 && step > 0
    ensures d * step >= step
    decreases d
  {
    if d > 1 {
      MulAtLeast(d - 1, step);
      assert d * step == (d - 1) * step + step;
    }
  }

  datatype Driver = Postgres | Sqlite

  function Interval(d: Driver, at: real, step: int): int
    requires step > 0
  {
    if d.Postgres? then PostgresInterval(at, step) else SqliteInterval(at, step)
  }

  // ---- The latest snapshot of each bucket ----

  /** The order of the rows in the sequence is the one the database breaks ties by. */
  predicate Precedes(d: Driver, snaps: seq<Snapshot>, step: int, j: nat, i: nat)
    requires step > 0 && j < |snaps| && i < |snaps|
  {
    && snaps[j].bucket == snaps[i].bucket
    && Interval(d, snaps[j].at, step) == Interval(d, snaps[i].at, step)
    && (snaps[j].at > snaps[i].at || (snaps[j].at == snaps[i].at && j < i))
  }

  /** The row number of a row within its interval and bucket, latest first. */
  function RowNumber(d: Driver, snaps: seq<Snapshot>, step: int, i: nat): nat
    requires step > 0 && i < |snaps|
  {
    1 + |set j | 0 <= j < |snaps| && Precedes(d, snaps, step, j, i)|
  }

  /** The rows the query sums up for an interval. */
  function Chosen(d: Driver, snaps: seq<Snapshot>, step: int, ts: int): set<nat>
    requires step > 0
  {
    set i: nat | i < |snaps| && Interval(d, snaps[i].at, step) == ts && RowNumber(d, snaps, step, i) == 1
  }

  predicate In(d: Driver, snaps: seq<Snapshot>, step: int, ts: int, bucket: string, i: nat)
    requires step > 0 && i < |snaps|
  {
    snaps[i].bucket == bucket && Interval(d, snaps[i].at, step) == ts
  }

  /** The latest snapshot of a bucket in an interval among the first n, found by a scan. */
  function Latest(d: Driver, snaps: seq<Snapshot>, step: int, ts: int, bucket: string, n: nat): Option<nat>
    requires step > 0 && n <= |snaps|
  {
    if n == 0 then None
    else
      var best := Latest(d, snaps, step, ts, bucket, n - 1);
      if In(d, snaps, step, ts, bucket, n - 1) && (best.None? || (best.value < |snaps| && snaps[best.value].at < snaps[n - 1].at))
      then Some(n - 1)
      else best
  }

  /** The scan finds a snapshot that none precedes. */
  lemma {:induction false} LatestIsFirst(d: Driver, snaps: seq<Snapshot>, step: int, ts: int, bucket: string, n: nat)
    requires step > 0 && n <= |snaps|
    ensures var best := Latest(d, snaps, step, ts, bucket, n);
      && (best.None? ==> forall j :: 0 <= j < n ==> !In(d, snaps, step, ts, bucket, j))
      && (best.Some? ==>
            && best.value < n && In(d, snaps, step, ts, bucket, best.value)
            && forall j :: 0 <= j < n && In(d, snaps, step, ts, bucket, j) ==> !Precedes(d, snaps, step, j, best.value))
  {
    if n > 0 {
      LatestIsFirst(d, snaps, step, ts, bucket, n - 1);
      var best := Latest(d, snaps, step, ts, bucket, n - 1);
      if best.Some? && Latest(d, snaps, step, ts, bucket, n) == Some(n - 1) {
        forall j | 0 <= j < n && In(d, snaps, step, ts, bucket, j) ensures !Precedes(d, snaps, step, j, n - 1) {
          assert j < n - 1 ==> !Precedes(d, snaps, step, j, best.value);
        }
      }
    }
  }

  lemma RowNumberOne(d: Driver, snaps: seq<Snapshot>, step: int, i: nat)
    requires step > 0 && i < |snaps|
    ensures RowNumber(d, snaps, step, i) == 1 <==> forall j :: 0 <= j < |snaps| ==> !Precedes(d, snaps, step, j, i)
  {
    var before := set j | 0 <= j < |snaps| && Precedes(d, snaps, step, j, i);
    if before == {} {
      forall j | 0 <= j < |snaps| ensures !Precedes(d, snaps, step, j, i) {
        assert j !in before;
      }
    } else {
      var j :| j in before;
      assert |before| >= |{j}|;
    }
  }

  /** A row has number one exactly when it is the latest of its bucket in its interval. */
  lemma ChosenIsLatest(d: Driver, snaps: seq<Snapshot>, step: int, ts: int, i: nat)
    requires step > 0 && i < |snaps|
    ensures i in Chosen(d, snaps, step, ts) <==>
      Interval(d, snaps[i].at, step) == ts && Latest(d, snaps, step, ts, snaps[i].bucket, |snaps|) == Some(i)
  {
    RowNumberOne(d, snaps, step, i);
    if Interval(d, snaps[i].at, step) == ts {
      LatestIsFirst(d, snaps, step, ts, snaps[i].bucket, |snaps|);
      assert In(d, snaps, step, ts, snaps[i].bucket, i);
      var best := Latest(d, snaps, step, ts, snaps[i].bucket, |snaps|).value;
      assert Precedes(d, snaps, step, best, i) || Precedes(d, snaps, step, i, best) || best == i;
    }
  }

  // ---- Sums ----

  ghost function Sum<T(!new)>(s: set<T>, f: T -> int): int {
    if s == {} then 0
    else
      var x :| x in s;
      f(x) + Sum(s - {x}, f)
  }

  /** The order of summation does not matter. */
  lemma {:induction false} SumWithout<T(!new)>(s: set<T>, f: T -> int, x: T)
    requires x in s
    ensures Sum(s, f) == f(x) + Sum(s - {x}, f)
    decreases |s|
  {
    var y :| y in s && Sum(s, f) == f(y) + Sum(s - {y}, f);
    if y != x {
      SumWithout(s - {y}, f, x);
      SumWithout(s - {x}, f, y);
      assert s - {y} - {x} == s - {x} - {y};
    }
  }

  /** Summing over rows is summing over their keys when the keys are distinct. */
  lemma {:induction false} SumReindexed<A(!new), B(!new)>(a: set<A>, b: set<B>, key: A -> B, f: A -> int, g: B -> int)
    requires forall x :: x in a ==> key(x) in b && f(x) == g(key(x))
    requires forall x, y :: x in a && y in a && key(x) == key(y) ==> x == y
    requires forall k :: k in b ==> exists x :: x in a && key(x) == k
    ensures Sum(a, f) == Sum(b, g)
    decreases |a|
  {
    if a == {} {
      assert b == {};
    } else {
      var x :| x in a;
      SumWithout(a, f, x);
      SumWithout(b, g, key(x));
      forall k | k in b - {key(x)} ensures exists y :: y in a - {x} && key(y) == k {
        var y :| y in a && key(y) == k;
        assert y in a - {x};
      }
      SumReindexed(a - {x}, b - {key(x)}, key, f, g);
    }
  }

  function BucketsIn(d: Driver, snaps: seq<Snapshot>, step: int, ts: int): set<string>
    requires step > 0
  {
    set i | 0 <= i < |snaps| && Interval(d, snaps[i].at, step) == ts :: snaps[i].bucket
  }

  function LatestValue(d: Driver, snaps: seq<Snapshot>, step: int, ts: int, value: Snapshot -> int): string -> int
    requires step > 0
  {
    (bucket: string) =>
      var i := Latest(d, snaps, step, ts, bucket, |snaps|);
      if i.Some? && i.value < |snaps| then value(snaps[i.value]) else 0
  }

  function RowValue(snaps: seq<Snapshot>, value: Snapshot -> int): nat -> int {
    (i: nat) => if i < |snaps| then value(snaps[i]) else 0
  }

  function RowBucket(snaps: seq<Snapshot>): nat -> string {
    (i: nat) => if i < |snaps| then snaps[i].bucket else ""
  }

  /** For every interval the query's sum over the rows numbered one is the sum, over the buckets that
      have a snapshot in the interval, of the latest one's value (its bytes or its object count). */
  lemma SeriesSumsLatestPerBucket(d: Driver, snaps: seq<Snapshot>, step: int, ts: int, value: Snapshot -> int)
    requires step > 0
    ensures Sum(Chosen(d, snaps, step, ts), RowValue(snaps, value)) ==
            Sum(BucketsIn(d, snaps, step, ts), LatestValue(d, snaps, step, ts, value))
  {
    var f, g, key := RowValue(snaps, value), LatestValue(d, snaps, step, ts, value), RowBucket(snaps);
    var rows, buckets := Chosen(d, snaps, step, ts), BucketsIn(d, snaps, step, ts);
    forall i | i in rows ensures key(i) in buckets && f(i) == g(key(i)) {
      ChosenIsLatest(d, snaps, step, ts, i);
    }
    forall i, j | i in rows && j in rows && key(i) == key(j) ensures i == j {
      ChosenIsLatest(d, snaps, step, ts, i);
      ChosenIsLatest(d, snaps, step, ts, j);
    }
    forall b | b in buckets ensures exists i :: i in rows && key(i) == b {
      BucketHasChosenRow(d, snaps, step, ts, b);
    }
    SumReindexed(rows, buckets, key, f, g);
  }

  lemma BucketHasChosenRow(d: Driver, snaps: seq<Snapshot>, step: int, ts: int, bucket: string)
    requires step > 0 && bucket in BucketsIn(d, snaps, step, ts)
    ensures exists i :: i in Chosen(d, snaps, step, ts) && RowBucket(snaps)(i) == bucket
  {
    var i :| 0 <= i < |snaps| && Interval(d, snaps[i].at, step) == ts && snaps[i].bucket == bucket;
    LatestIsFirst(d, snaps, step, ts, bucket, |snaps|);
    assert In(d, snaps, step, ts, bucket, i);
    var best := Latest(d, snaps, step, ts, bucket, |snaps|).value;
    ChosenIsLatest(d, snaps, step, ts, best);
    assert RowBucket(snaps)(best) == bucket;
  }

  // ---- The number of points ----

  /** The window in hours and the width of an interval in seconds. */
  function WindowHours(hours: int): int {
    if hours <= 0 then 24 * 7 else hours
  }

  function StepSeconds(hours: int): (step: int)
    ensures step >= 300
  {
    var step := WindowHours(hours) * 3600 / 48;
    if step < 300 then 300 else step
  }

  /** The points of the series: the intervals that hold a snapshot of the window. */
  function Points(d: Driver, snaps: seq<Snapshot>, step: int): set<int>
    requires step > 0
  {
    set i | 0 <= i < |snaps| :: Interval(d, snaps[i].at, step)
  }

  function Multiples(first: int, n: nat, step: int): set<int> {
    if n == 0 then {} else Multiples(first, n - 1, step) + {(first + n - 1) * step}
  }

  lemma {:induction false} MultiplesCount(first: int, n: nat, step: int)
    ensures |Multiples(first, n, step)| <= n
    ensures forall q :: first <= q < first + n ==> q * step in Multiples(first, n, step)
  {
    if n > 0 {
      MultiplesCount(first, n - 1, step);
    }
  }

  lemma SubsetIsSmaller<T>(a: set<T>, b: set<T>)
    requires a <= b
    ensures |a| <= |b|
  {
    assert b == a + (b - a);
  }

  /** The window is at most 48 steps long. */
  lemma WindowInSteps(hours: int)
    ensures WindowHours(hours) * 3600 <= 48 * StepSeconds(hours)
  {
  }

  /** The step exactly: five minutes up to three hours, then a 48th of the window. */
  lemma StepIsExact(hours: int)
    ensures StepSeconds(hours) == if 0 < hours < 4 then 300 else 75 * WindowHours(hours)
    ensures hours <= 0 ==> WindowHours(hours) == 168
    ensures hours > 0 ==> WindowHours(hours) == hours
    ensures !(0 < hours < 4) ==> 48 * StepSeconds(hours) == WindowHours(hours) * 3600
  {
  }

  lemma {:induction false} MultiplesAreDistinct(first: int, n: nat, step: int)
    requires step > 0
    ensures |Multiples(first, n, step)| == n
    ensures forall x :: x in Multiples(first, n, step) ==> x < (first + n) * step
  {
    if n > 0 {
      MultiplesAreDistinct(first, n - 1, step);
      assert (first + n) * step == (first + n - 1) * step + step;
    }
  }

  /** A series with a snapshot in every interval from `first` on has that many points: nothing coarser
      than the step is merged. */
  lemma EveryIntervalIsAPoint(d: Driver, snaps: seq<Snapshot>, step: int, first: int, n: nat)
    requires step > 0
    requires forall q :: first <= q < first + n ==> exists i :: 0 <= i < |snaps| && Interval(d, snaps[i].at, step) == q * step
    ensures |Points(d, snaps, step)| >= n
  {
    MultiplesAreDistinct(first, n, step);
    forall x | x in Multiples(first, n, step) ensures x in Points(d, snaps, step) {
      MultipleOf(first, n, step, x);
    }
    SubsetIsSmaller(Multiples(first, n, step), Points(d, snaps, step));
  }

  lemma {:induction false} MultipleOf(first: int, n: nat, step: int, x: int)
    requires x in Multiples(first, n, step)
    ensures exists q :: first <= q < first + n && x == q * step
  {
    if n > 0 && x != (first + n - 1) * step {
      MultipleOf(first, n - 1, step, x);
    }
  }

  lemma QuotientGap(lo: int, hi: int, step: int)
    requires step > 0 && lo <= hi <= lo + 48 * step
    ensures lo / step <= hi / step <= lo / step + 48
  {
    var q, r := lo / step, lo % step;
    var p := hi / step;
    assert lo == q * step + r && hi == p * step + hi % step;
    assert (q - p) * step == q * step - p * step;
    assert (p - q - 48) * step == p * step - q * step - 48 * step;
    if p < q {
      MulAtLeast(q - p, step);
    }
    if p > q + 48 {
      MulAtLeast(p - q - 48, step);
    }
  }

  /** For every window (on SQLite: after the epoch), snapshots taken within it, from the second it
      starts in until now, give at most 49 points. */
  lemma AtMost49Points(d: Driver, snaps: seq<Snapshot>, hours: int, now: real)
    requires d == Postgres || now >= (WindowHours(hours) * 3600) as real
    requires forall i :: 0 <= i < |snaps| ==>
      (now - (WindowHours(hours) * 3600) as real).Floor as real <= snaps[i].at <= now
    ensures |Points(d, snaps, StepSeconds(hours))| <= 49
  {
    var step := StepSeconds(hours);
    var w := WindowHours(hours) * 3600;
    var since := (now - w as real).Floor;
    WindowInSteps(hours);
    assert since == now.Floor - w;
    var first := since / step;
    MultiplesCount(first, 49, step);
    forall ts | ts in Points(d, snaps, step) ensures ts in Multiples(first, 49, step) {
      var i :| 0 <= i < |snaps| && ts == Interval(d, snaps[i].at, step);
      FloorOfQuotient(snaps[i].at, step);
      DriversAgreeExactly(snaps[i].at, step);
      assert since <= snaps[i].at.Floor <= now.Floor;
      QuotientGap(since, snaps[i].at.Floor, step);
    }
    SubsetIsSmaller(Points(d, snaps, step), Multiples(first, 49, step));
  }
}
