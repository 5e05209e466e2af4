/** Event counts in fixed time buckets, on the server and in the browser. Times are in
    microseconds since the epoch. */
module EventRates {
  import opened CsvPrinters
  import opened Options

  const MICROS: int := 1_000_000

  /** Division that rounds towards zero: `int()` in Python, `mod` in SQL. */
  function TruncDiv(a: int, b: int): int
    requires b > 0
  {
    if a >= 0 then a / b else -((-a) / b)
  }

  function SqlMod(a: int, b: int): int
    requires b > 0
  {
    a - TruncDiv(a, b) * b
  }

  /** The database's whole seconds of a time, rounded down. */
  function EpochSeconds(time: int): int {
    time / MICROS
  }

  /** The start of the bucket that the database puts a second in. */
  function SqlBucket(second: int, width: int): int
    requires width > 0
  {
    second - SqlMod(second, width)
  }

  /** The start of the bucket that contains a second. */
  function BucketOf(second: int, width: int): int
    requires width > 0
  {
    second / width * width
  }

  function FirstBucket(time: int, width: int): int
    requires width > 0
  {
    BucketOf(TruncDiv(time, MICROS), width)
  }

  /** The number of buckets of a series; 0 for an empty period. */
  function EventRateBucketCount(from: int, to: int, width: int): int
    requires width > 0
  {
    var first, last := FirstBucket(from, width), FirstBucket(to, width);
    if last < first then 0 else (last - first) / width + 1
  }

  /** The database's bucket is the right one exactly for seconds from the epoch on and for
      seconds on a bucket boundary. */
  lemma SqlBucketIsRightExactly(second: int, width: int)
    requires width > 0
    ensures SqlBucket(second, width) == BucketOf(second, width) <==> second >= 0 || second % width == 0
  {
    SqlBucketFormula(second, width);
  }

  /** Before the epoch and off a boundary the database names the next bucket. */
  lemma SqlBucketFormula(second: int, width: int)
    requires width > 0
    ensures SqlBucket(second, width)
            == BucketOf(second, width) + if second < 0 && second % width != 0 then width else 0
  {
    if second < 0 {
      NegativeQuotient(second, width);
      Distribute(second / width + 1, second / width, width);
    }
  }

  lemma NegativeQuotient(a: int, b: int)
    requires a < 0 && b > 0
    ensures TruncDiv(a, b) == if a % b == 0 then a / b else a / b + 1
  {
    var q, r := a / b, a % b;
    assert a == q * b + r;
    Negate(q, b);
    if r == 0 {
      QuotientIs(-a, b, -q, 0);
    } else {
      Distribute(-q, -q - 1, b);
      QuotientIs(-a, b, -q - 1, b - r);
    }
  }

  lemma Negate(q: int, b: int)
    ensures (-q) * b == -(q * b)
  {
  }

  lemma QuotientIs(a: int, b: int, q: int, r: int)
    requires b > 0 && a == q * b + r && 0 <= r < b
    ensures a / b == q
  {
    assert a == (a / b) * b + a % b;
    Distribute(a / b, q, b);
    ProductBound(a / b - q, b);
  }

  lemma ProductBound(d: int, b: int)
    requires b > 0
    ensures (d > 0 ==> d * b >= b) && (d < 0 ==> d * b <= -b)
  {
  }

  lemma Distribute(a: int, b: int, width: int)
    ensures a * width == b * width + (a - b) * width
  {
  }

  lemma BucketBounds(second: int, width: int)
    requires width > 0
    ensures BucketOf(second, width) <= second < BucketOf(second, width) + width
    ensures second % width == 0 <==> BucketOf(second, width) == second
  {
    assert second == second / width * width + second % width;
  }

  lemma MultiplesOrdered(a: int, b: int, width: int)
    requires width > 0 && a * width < b * width + width
    ensures a <= b && a * width <= b * width
  {
    Distribute(a, b, width);
    ProductBound(a - b, width);
  }

  lemma BucketsOrdered(a: int, b: int, width: int)
    requires width > 0 && a <= b
    ensures a / width <= b / width && BucketOf(a, width) <= BucketOf(b, width)
  {
    BucketBounds(a, width);
    BucketBounds(b, width);
    MultiplesOrdered(a / width, b / width, width);
  }

  /** A bucket contains just the seconds from its start up to the next one's. */
  lemma BucketIsInterval(second: int, k: int, width: int)
    requires width > 0
    ensures BucketOf(second, width) == k * width <==> k * width <= second < k * width + width
  {
    BucketBounds(second, width);
    if k * width <= second < k * width + width {
      MultiplesOrdered(k, second / width, width);
      MultiplesOrdered(second / width, k, width);
    }
  }

  // ---- the series

  datatype Bucket = Bucket(start: int, count: nat)

  predicate InPeriod(time: int, from: int, to: int) {
    from <= time <= to
  }

  /** How many events of the period satisfy a condition. */
  function Count(times: seq<int>, from: int, to: int, counts: int -> bool): nat {
    if times == [] then 0 else
    var last := times[|times| - 1];
    Count(times[..|times| - 1], from, to, counts) + if InPeriod(last, from, to) && counts(last) then 1 else 0
  }

  function InSqlBucket(start: int, width: int): int -> bool
    requires width > 0
  {
    time => SqlBucket(EpochSeconds(time), width) == start
  }

  /** The interval that the bucket stands for. */
  function Within(start: int, width: int): int -> bool {
    time => start * MICROS <= time < (start + width) * MICROS
  }

  /** GROUP BY bucket, COUNT(*). */
  method CountByEpoch(times: seq<int>, from: int, to: int, width: int) returns (counts: map<int, nat>)
    requires width > 0
    ensures forall start :: (if start in counts then counts[start] else 0)
              == Count(times, from, to, InSqlBucket(start, width))
  {
    counts := map[];
    for i := 0 to |times|
      invariant forall start :: (if start in counts then counts[start] else 0)
                  == Count(times[..i], from, to, InSqlBucket(start, width))
    {
      assert times[..i + 1][..i] == times[..i];
      if InPeriod(times[i], from, to) {
        var start := SqlBucket(EpochSeconds(times[i]), width);
        counts := counts[start := (if start in counts then counts[start] else 0) + 1];
      }
    }
    assert times[..|times|] == times;
  }

  /** Contiguous buckets from `first` on, each with its count. */
  ghost predicate IsSeries(buckets: seq<Bucket>, times: seq<int>, from: int, to: int, first: int, width: int)
    requires width > 0
  {
    forall k :: 0 <= k < |buckets| ==>
      buckets[k].start == StartOf(first, k, width)
      && buckets[k].count == Count(times, from, to, InSqlBucket(buckets[k].start, width))
  }

  lemma OneMoreBucket(buckets: seq<Bucket>, times: seq<int>, from: int, to: int, first: int, width: int, bucket: Bucket)
    requires width > 0 && IsSeries(buckets, times, from, to, first, width)
    requires Sum(buckets) == Total(times, from, to, first, width, |buckets|)
    requires bucket.start == StartOf(first, |buckets|, width)
    requires bucket.count == Count(times, from, to, InSqlBucket(bucket.start, width))
    ensures IsSeries(buckets + [bucket], times, from, to, first, width)
    ensures Sum(buckets + [bucket]) == Total(times, from, to, first, width, |buckets| + 1)
  {
    SumOfExtended(buckets, bucket);
  }

  lemma NextStart(first: int, k: nat, width: int)
    ensures StartOf(first, k + 1, width) == StartOf(first, k, width) + width
  {
    Distribute(k + 1, k, width);
  }

  /** Contiguous buckets from the one of `from` to the one of `to`, empty ones included. */
  method GetEventRateSeries(times: seq<int>, from: int, to: int, width: int) returns (buckets: seq<Bucket>)
    requires width > 0
    ensures |buckets| == EventRateBucketCount(from, to, width)
    ensures IsSeries(buckets, times, from, to, FirstBucket(from, width), width)
    ensures Sum(buckets) == Count(times, from, to, NotMissed(from, to, width))
  {
    var counts := CountByEpoch(times, from, to, width);
    var first, last := FirstBucket(from, width), FirstBucket(to, width);
    ghost var n := EventRateBucketCount(from, to, width);
    SeriesEnd(from, to, width, 0);
    buckets := [];
    var start := first;
    while start < last + width
      invariant start == StartOf(first, |buckets|, width) && |buckets| <= n
      invariant start < last + width <==> |buckets| < n
      invariant IsSeries(buckets, times, from, to, first, width)
      invariant Sum(buckets) == Total(times, from, to, first, width, |buckets|)
      decreases n - |buckets|
    {
      NextStart(first, |buckets|, width);
      SeriesEnd(from, to, width, |buckets| + 1);
      var bucket := Bucket(start, if start in counts then counts[start] else 0);
      OneMoreBucket(buckets, times, from, to, first, width, bucket);
      buckets := buckets + [bucket];
      start := start + width;
    }
    CountsSumToTheNotMissed(times, from, to, width);
  }

  /** The k-th bucket starts before the end of the series exactly if there is such a bucket. */
  lemma SeriesEnd(from: int, to: int, width: int, k: nat)
    requires width > 0
    ensures var n := EventRateBucketCount(from, to, width);
            n >= 0 && (StartOf(FirstBucket(from, width), k, width) < FirstBucket(to, width) + width <==> k < n)
  {
    var first, n := FirstBucket(from, width), EventRateBucketCount(from, to, width);
    BucketsFit(from, to, width);
    StartsBelowEnd(first, k, width, n);
    ProductBound(k, width);
  }

  function Sum(buckets: seq<Bucket>): nat {
    if buckets == [] then 0 else Sum(buckets[..|buckets| - 1]) + buckets[|buckets| - 1].count
  }

  lemma SumOfExtended(buckets: seq<Bucket>, bucket: Bucket)
    ensures Sum(buckets + [bucket]) == Sum(buckets) + bucket.count
  {
    assert (buckets + [bucket])[..|buckets|] == buckets;
  }

  /** The end of the last bucket is `n` widths after the first start, if there is a bucket. */
  lemma BucketsFit(from: int, to: int, width: int)
    requires width > 0
    ensures var first, last, n :=
              FirstBucket(from, width), FirstBucket(to, width), EventRateBucketCount(from, to, width);
            n >= 0 && if n == 0 then last + width <= first else last + width == first + n * width
  {
    var a, b := TruncDiv(from, MICROS) / width, TruncDiv(to, MICROS) / width;
    Distribute(b, a, width);
    if b >= a {
      QuotientIs((b - a) * width, width, b - a, 0);
      Distribute(b - a + 1, b - a, width);
      ProductBound(b - a, width);
    } else {
      ProductBound(b - a, width);
    }
  }

  lemma StartsBelowEnd(first: int, k: int, width: int, n: int)
    requires width > 0
    ensures first + k * width < first + n * width <==> k < n
  {
    Distribute(k, n, width);
    ProductBound(k - n, width);
  }

  // ---- what the counts are

  lemma SecondsInBucket(time: int, start: int, width: int)
    ensures Within(start, width)(time) <==> start <= EpochSeconds(time) < start + width
  {
    assert time == MICROS * EpochSeconds(time) + time % MICROS;
  }

  /** Being put in a bucket by the database means lying in its interval, fractions of a second
      included, from the epoch on and on boundaries. */
  lemma SqlBucketIsTheInterval(time: int, k: int, width: int)
    requires width > 0 && !PutInNext(time, width)
    ensures InSqlBucket(k * width, width)(time) <==> Within(k * width, width)(time)
  {
    SqlBucketFormula(EpochSeconds(time), width);
    BucketIsInterval(EpochSeconds(time), k, width);
    SecondsInBucket(time, k * width, width);
  }

  /** The database puts this event in the bucket after its own. */
  predicate PutInNext(time: int, width: int)
    requires width > 0
  {
    EpochSeconds(time) < 0 && EpochSeconds(time) % width != 0
  }

  /** No event that the period could hold is put in the next bucket. */
  predicate NoneIsPutInNext(from: int, to: int, width: int)
    requires width > 0
  {
    || to < from || from >= 0 || width == 1
    || (EpochSeconds(from) % width == 0 && EpochSeconds(to) == EpochSeconds(from))
  }

  lemma SecondsOrdered(a: int, b: int)
    requires a <= b
    ensures EpochSeconds(a) <= EpochSeconds(b)
  {
    assert a == MICROS * EpochSeconds(a) + a % MICROS && b == MICROS * EpochSeconds(b) + b % MICROS;
  }

  /** Of two neighbouring seconds only one is on a boundary. */
  lemma NeighbourOffBoundary(second: int, width: int)
    requires width > 1 && second % width == 0
    ensures (second + 1) % width != 0
  {
    var q := second / width;
    assert second == q * width;
    QuotientIs(second + 1, width, q, 1);
    assert second + 1 == (second + 1) / width * width + (second + 1) % width;
  }

  lemma SomeIsPutInNext(from: int, to: int, width: int) returns (time: int)
    requires width > 0 && !NoneIsPutInNext(from, to, width)
    ensures InPeriod(time, from, to) && PutInNext(time, width)
  {
    SecondsOrdered(from, to);
    var second := EpochSeconds(from);
    if second % width != 0 {
      time := from;
    } else {
      NeighbourOffBoundary(second, width);
      time := (second + 1) * MICROS;
      WholeSecond(second + 1);
      if second == -1 { QuotientIs(-1, width, -1, width - 1); }
      assert from < time <= to by { SecondBounds(from); SecondBounds(to); }
    }
  }

  lemma WholeSecond(second: int)
    ensures EpochSeconds(second * MICROS) == second
  {
  }

  lemma SecondBounds(time: int)
    ensures EpochSeconds(time) * MICROS <= time < (EpochSeconds(time) + 1) * MICROS
  {
  }

  lemma NonePutInNext(from: int, to: int, width: int, time: int)
    requires width > 0 && NoneIsPutInNext(from, to, width) && InPeriod(time, from, to)
    ensures !PutInNext(time, width)
  {
    SecondsOrdered(from, time);
    SecondsOrdered(time, to);
  }

  lemma {:induction false} CountsAgree(times: seq<int>, from: int, to: int, k: int, width: int)
    requires width > 0 && NoneIsPutInNext(from, to, width)
    ensures Count(times, from, to, InSqlBucket(k * width, width)) == Count(times, from, to, Within(k * width, width))
    decreases |times|
  {
    if times != [] {
      CountsAgree(times[..|times| - 1], from, to, k, width);
      var last := times[|times| - 1];
      if InPeriod(last, from, to) {
        NonePutInNext(from, to, width, last);
        SqlBucketIsTheInterval(last, k, width);
      }
    }
  }

  ghost predicate AgreesEverywhere(times: seq<int>, from: int, to: int, width: int)
    requires width > 0
  {
    forall k: int :: Count(times, from, to, InSqlBucket(k * width, width))
      == Count(times, from, to, Within(k * width, width))
  }

  lemma CountOfOne(from: int, to: int, counts: int -> bool, time: int)
    ensures Count([time], from, to, counts) == if InPeriod(time, from, to) && counts(time) then 1 else 0
  {
    assert [time][..0] == [];
  }

  lemma PutInNextDisagrees(from: int, to: int, width: int, time: int)
    requires width > 0 && InPeriod(time, from, to) && PutInNext(time, width)
    ensures !AgreesEverywhere([time], from, to, width)
  {
    var second := EpochSeconds(time);
    var k := second / width;
    SqlBucketFormula(second, width);
    BucketBounds(second, width);
    SecondsInBucket(time, k * width, width);
    CountOfOne(from, to, InSqlBucket(k * width, width), time);
    CountOfOne(from, to, Within(k * width, width), time);
  }

  /** Every bucket counts just the events of the period in its interval, whatever the events are,
      exactly if the period starts at the epoch or later, or within one boundary second. */
  lemma CountsAreOfIntervals(from: int, to: int, width: int)
    requires width > 0
    ensures (forall times :: AgreesEverywhere(times, from, to, width)) <==> NoneIsPutInNext(from, to, width)
  {
    if NoneIsPutInNext(from, to, width) {
      forall times ensures AgreesEverywhere(times, from, to, width) {
        forall k: int
          ensures Count(times, from, to, InSqlBucket(k * width, width))
                    == Count(times, from, to, Within(k * width, width))
        {
          CountsAgree(times, from, to, k, width);
        }
      }
    } else {
      var time := SomeIsPutInNext(from, to, width);
      PutInNextDisagrees(from, to, width, time);
    }
  }

  // ---- which events the series holds

  function StartOf(first: int, k: int, width: int): int {
    first + k * width
  }

  /** The event is counted in some bucket of the series. */
  ghost predicate InSeries(time: int, from: int, to: int, width: int)
    requires width > 0
  {
    exists k :: 0 <= k < EventRateBucketCount(from, to, width)
                && SqlBucket(EpochSeconds(time), width) == StartOf(FirstBucket(from, width), k, width)
  }

  /** It is put in the bucket after the last one; or buckets are one second wide and the second
      is before the start, which is rounded up before the epoch. */
  predicate Missed(time: int, from: int, to: int, width: int)
    requires width > 0
  {
    || (PutInNext(time, width) && BucketOf(EpochSeconds(time), width) == FirstBucket(to, width))
    || (width == 1 && EpochSeconds(time) < TruncDiv(from, MICROS))
  }

  /** Rounding towards zero gives the second, or the next one before the epoch. */
  lemma TruncatedSecond(time: int)
    ensures EpochSeconds(time) <= TruncDiv(time, MICROS) <= EpochSeconds(time) + 1
    ensures time >= 0 ==> TruncDiv(time, MICROS) == EpochSeconds(time)
  {
    if time < 0 { NegativeQuotient(time, MICROS); }
  }

  lemma TruncationOrdered(a: int, b: int)
    requires a <= b
    ensures TruncDiv(a, MICROS) <= TruncDiv(b, MICROS)
  {
    if a < 0 { NegativeQuotient(a, MICROS); }
    if b < 0 { NegativeQuotient(b, MICROS); }
    SecondBounds(a);
    SecondBounds(b);
    SecondsOrdered(a, b);
    if a < 0 <= b { NegativeTruncation(a); }
  }

  lemma NegativeTruncation(a: int)
    requires a < 0
    ensures TruncDiv(a, MICROS) <= 0
  {
  }

  /** Where the database puts an event of the period, counted in buckets from the first. */
  function Position(time: int, from: int, width: int): int
    requires width > 0
  {
    EpochSeconds(time) / width + (if PutInNext(time, width) then 1 else 0) - TruncDiv(from, MICROS) / width
  }

  lemma PositionIsRight(time: int, from: int, width: int)
    requires width > 0
    ensures SqlBucket(EpochSeconds(time), width)
              == StartOf(FirstBucket(from, width), Position(time, from, width), width)
  {
    var q, a := EpochSeconds(time) / width, TruncDiv(from, MICROS) / width;
    SqlBucketFormula(EpochSeconds(time), width);
    Distribute(q, a, width);
    Distribute(q + 1 - a, q - a, width);
  }

  lemma CountOfPeriod(from: int, to: int, width: int)
    requires width > 0 && from <= to
    ensures EventRateBucketCount(from, to, width) == TruncDiv(to, MICROS) / width - TruncDiv(from, MICROS) / width + 1
  {
    var a, b := TruncDiv(from, MICROS) / width, TruncDiv(to, MICROS) / width;
    TruncationOrdered(from, to);
    BucketsOrdered(TruncDiv(from, MICROS), TruncDiv(to, MICROS), width);
    Distribute(b, a, width);
    QuotientIs((b - a) * width, width, b - a, 0);
  }

  /** No event of the period is put before the first bucket, unless buckets are a second wide. */
  lemma NotBeforeFirst(time: int, from: int, width: int)
    requires width > 1 && from <= time
    ensures Position(time, from, width) >= 0
  {
    var second, start := EpochSeconds(time), TruncDiv(from, MICROS);
    SecondsOrdered(from, time);
    TruncatedSecond(from);
    if start <= second {
      BucketsOrdered(start, second, width);
    } else {
      SecondBounds(from);
      TruncatedNegative(from);
      NextSecond(second, width);
    }
  }

  lemma TruncatedNegative(time: int)
    requires EpochSeconds(time) < TruncDiv(time, MICROS)
    ensures EpochSeconds(time) < 0
  {
  }

  lemma NextSecond(second: int, width: int)
    requires width > 1 && second < 0
    ensures (second + 1) / width <= second / width + if second % width != 0 then 1 else 0
  {
    BucketBounds(second, width);
    BucketBounds(second + 1, width);
    if second % width == 0 {
      QuotientIs(second + 1, width, second / width, 1);
    } else {
      Distribute(second / width + 1, second / width, width);
      MultiplesOrdered((second + 1) / width, second / width + 1, width);
    }
  }

  lemma WidthOne(second: int)
    ensures second / 1 == second && second % 1 == 0
  {
  }

  /** An event of the period is counted exactly if it is not missed. */
  lemma InSeriesExactly(time: int, from: int, to: int, width: int)
    requires width > 0 && InPeriod(time, from, to)
    ensures InSeries(time, from, to, width) <==> !Missed(time, from, to, width)
    ensures InSeries(time, from, to, width)
            <==> 0 <= Position(time, from, width) < EventRateBucketCount(from, to, width)
  {
    PositionIsRight(time, from, width);
    PositionDecides(time, from, to, width);
    forall k | SqlBucket(EpochSeconds(time), width) == StartOf(FirstBucket(from, width), k, width)
      ensures k == Position(time, from, width)
    {
      StartsDiffer(FirstBucket(from, width), k, Position(time, from, width), width);
    }
  }

  lemma PositionDecides(time: int, from: int, to: int, width: int)
    requires width > 0 && InPeriod(time, from, to)
    ensures Missed(time, from, to, width)
            <==> !(0 <= Position(time, from, width) < EventRateBucketCount(from, to, width))
  {
    var second, end := EpochSeconds(time), TruncDiv(to, MICROS);
    CountOfPeriod(from, to, width);
    SecondsOrdered(time, to);
    TruncatedSecond(to);
    BucketsOrdered(second, end, width);
    if width == 1 {
      WidthOne(second); WidthOne(end); WidthOne(TruncDiv(from, MICROS));
    } else {
      NotBeforeFirst(time, from, width);
      SameQuotient(second, end, width);
    }
  }

  lemma SameQuotient(a: int, b: int, width: int)
    requires width > 0
    ensures BucketOf(a, width) == BucketOf(b, width) <==> a / width == b / width
  {
    Distribute(a / width, b / width, width);
    ProductBound(a / width - b / width, width);
  }

  lemma StartsDiffer(first: int, j: int, k: int, width: int)
    requires width > 0
    ensures StartOf(first, j, width) == StartOf(first, k, width) <==> j == k
  {
    Distribute(j, k, width);
    ProductBound(j - k, width);
  }

  // ---- their number

  /** The counts of the first `n` buckets together. */
  function Total(times: seq<int>, from: int, to: int, first: int, width: int, n: nat): nat
    requires width > 0
  {
    if n == 0 then 0
    else Total(times, from, to, first, width, n - 1)
         + Count(times, from, to, InSqlBucket(StartOf(first, n - 1, width), width))
  }

  lemma {:induction false} TotalOfNothing(from: int, to: int, first: int, width: int, n: nat)
    requires width > 0
    ensures Total([], from, to, first, width, n) == 0
    decreases n
  {
    if n > 0 { TotalOfNothing(from, to, first, width, n - 1); }
  }

  /** One more event adds one to the total if its bucket is among the first `n`. */
  lemma {:induction false} TotalGrows(times: seq<int>, from: int, to: int, first: int, width: int, n: nat, time: int,
                                      j: int)
    requires width > 0 && InPeriod(time, from, to)
    requires SqlBucket(EpochSeconds(time), width) == StartOf(first, j, width)
    ensures Total(times + [time], from, to, first, width, n)
            == Total(times, from, to, first, width, n) + if 0 <= j < n then 1 else 0
    decreases n
  {
    if n > 0 {
      TotalGrows(times, from, to, first, width, n - 1, time, j);
      StartsDiffer(first, j, n - 1, width);
      CountOfExtended(times, from, to, InSqlBucket(StartOf(first, n - 1, width), width), time);
    }
  }

  lemma CountOfExtended(times: seq<int>, from: int, to: int, counts: int -> bool, time: int)
    ensures Count(times + [time], from, to, counts)
            == Count(times, from, to, counts) + if InPeriod(time, from, to) && counts(time) then 1 else 0
  {
    assert (times + [time])[..|times|] == times;
  }

  lemma {:induction false} TotalIgnoresOthers(times: seq<int>, from: int, to: int, first: int, width: int, n: nat,
                                              time: int)
    requires width > 0 && !InPeriod(time, from, to)
    ensures Total(times + [time], from, to, first, width, n) == Total(times, from, to, first, width, n)
    decreases n
  {
    if n > 0 {
      TotalIgnoresOthers(times, from, to, first, width, n - 1, time);
      CountOfExtended(times, from, to, InSqlBucket(StartOf(first, n - 1, width), width), time);
    }
  }

  function All(time: int): bool {
    true
  }

  function NotMissed(from: int, to: int, width: int): int -> bool
    requires width > 0
  {
    time => !Missed(time, from, to, width)
  }

  /** All counts of the series together. */
  function SeriesTotal(times: seq<int>, from: int, to: int, width: int): nat
    requires width > 0
  {
    var n := EventRateBucketCount(from, to, width);
    if n < 0 then 0 else Total(times, from, to, FirstBucket(from, width), width, n)
  }

  /** The counts of the series sum to the number of events of the period that are not missed. */
  lemma {:induction false} CountsSumToTheNotMissed(times: seq<int>, from: int, to: int, width: int)
    requires width > 0
    ensures SeriesTotal(times, from, to, width) == Count(times, from, to, NotMissed(from, to, width))
    decreases |times|
  {
    BucketsFit(from, to, width);
    var first, n := FirstBucket(from, width), EventRateBucketCount(from, to, width);
    if times == [] {
      TotalOfNothing(from, to, first, width, n);
    } else {
      var front, last := times[..|times| - 1], times[|times| - 1];
      CountsSumToTheNotMissed(front, from, to, width);
      assert times == front + [last];
      CountOfExtended(front, from, to, NotMissed(from, to, width), last);
      if InPeriod(last, from, to) {
        PositionIsRight(last, from, width);
        PositionDecides(last, from, to, width);
        TotalGrows(front, from, to, first, width, n, last, Position(last, from, width));
      } else {
        TotalIgnoresOthers(front, from, to, first, width, n, last);
      }
    }
  }

  /** Nothing that the period could hold is missed: an event at its very end is not, and with
      buckets of one second neither is one at its very start. */
  predicate LosesNothing(from: int, to: int, width: int)
    requires width > 0
  {
    || to < from
    || ((FirstBucket(to, width) >= 0 || EpochSeconds(to) <= FirstBucket(to, width))
        && (width > 1 || TruncDiv(from, MICROS) <= EpochSeconds(from)))
  }

  lemma LosingNothingMissesNothing(from: int, to: int, width: int, time: int)
    requires width > 0 && LosesNothing(from, to, width) && InPeriod(time, from, to)
    ensures !Missed(time, from, to, width)
  {
    SecondsOrdered(from, time);
    SecondsOrdered(time, to);
    BucketBounds(EpochSeconds(time), width);
  }

  lemma SomeIsMissed(from: int, to: int, width: int) returns (time: int)
    requires width > 0 && !LosesNothing(from, to, width)
    ensures InPeriod(time, from, to) && Missed(time, from, to, width)
  {
    if width == 1 && EpochSeconds(from) < TruncDiv(from, MICROS) {
      time := from;
    } else {
      time := to;
      EndIsMissed(to, width);
    }
  }

  /** The second of `to` is off its boundary and before the epoch. */
  lemma EndIsMissed(to: int, width: int)
    requires width > 0 && FirstBucket(to, width) < 0 && FirstBucket(to, width) < EpochSeconds(to)
    ensures PutInNext(to, width) && BucketOf(EpochSeconds(to), width) == FirstBucket(to, width)
  {
    var second, end := EpochSeconds(to), TruncDiv(to, MICROS);
    TruncatedSecond(to);
    BucketBounds(end, width);
    BucketIsInterval(second, end / width, width);
    BucketBounds(second, width);
    if second >= 0 { BucketsOrdered(0, end, width); }
  }

  lemma {:induction false} CountsEqual(times: seq<int>, from: int, to: int, a: int -> bool, b: int -> bool)
    requires forall time :: InPeriod(time, from, to) ==> a(time) == b(time)
    ensures Count(times, from, to, a) == Count(times, from, to, b)
    decreases |times|
  {
    if times != [] { CountsEqual(times[..|times| - 1], from, to, a, b); }
  }

  /** Conservation: the counts of the series sum to the number of events in the period, whatever
      the events are, exactly if the period loses nothing. */
  lemma CountsSumToTheEvents(from: int, to: int, width: int)
    requires width > 0
    ensures (forall times :: SeriesTotal(times, from, to, width) == Count(times, from, to, All))
            <==> LosesNothing(from, to, width)
  {
    if LosesNothing(from, to, width) {
      forall times ensures SeriesTotal(times, from, to, width) == Count(times, from, to, All) {
        CountsSumToTheNotMissed(times, from, to, width);
        forall time | InPeriod(time, from, to) ensures NotMissed(from, to, width)(time) == All(time) {
          LosingNothingMissesNothing(from, to, width, time);
        }
        CountsEqual(times, from, to, NotMissed(from, to, width), All);
      }
    } else {
      var time := SomeIsMissed(from, to, width);
      CountsSumToTheNotMissed([time], from, to, width);
      CountOfOne(from, to, NotMissed(from, to, width), time);
      CountOfOne(from, to, All, time);
    }
  }

  /** So a period that ends at the epoch or later loses nothing in buckets of two seconds or more. */
  lemma LatePeriodsLoseNothing(from: int, to: int, width: int)
    requires width > 1 && to >= 0
    ensures LosesNothing(from, to, width)
  {
    TruncatedSecond(to);
    BucketsOrdered(0, EpochSeconds(to), width);
  }

  /** A period that does: one event a second before the epoch, a period of the ten seconds before
      the epoch, buckets of five minutes. */
  lemma EarlyEventsCanBeMissed()
    ensures var times, from, to := [-1 * MICROS], -10 * MICROS, -1 * MICROS;
            && EventRateBucketCount(from, to, 300) == 1
            && Count(times, from, to, InSqlBucket(FirstBucket(from, 300), 300)) == 0
            && Count(times, from, to, All) == 1
  {
  }

  /** The browser, which sees milliseconds, names the same bucket as the server exactly for times
      from the epoch on and for those in the first second of a bucket. */
  lemma BrowserAgreesExactly(time: int, width: int)
    requires width > 0
    ensures BucketEpochUtcSec(Some(time / 1000), width) == Some(SqlBucket(EpochSeconds(time), width))
            <==> time >= 0 || EpochSeconds(time) % width == 0
  {
    assert time / 1000 / 1000 == EpochSeconds(time);
    SqlBucketIsRightExactly(EpochSeconds(time), width);
  }
}
