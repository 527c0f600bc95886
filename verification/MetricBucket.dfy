/** The counters of one time bucket (core/stat/base/metric_bucket.go) and the events they count (core/base/stat.go). */
module MetricBuckets {
  import opened LeapArrays
  import opened Prelude

  const PASS := 0
  const BLOCK := 1
  const COMPLETE := 2
  const ERROR := 3
  const RT := 4
  const BLOCK_FLOW := 8
  const BLOCK_ISOLATION := 9
  const BLOCK_CIRCUIT_BREAKING := 10
  const BLOCK_SYSTEM := 11
  const BLOCK_HOT_SPOT_PARAM_FLOW := 12
  const BLOCK_MOCK := 13
  const REJECT_PASS := 14
  const EVENT_TOTAL := 15

  /** Stands for a concurrency reading in a log of events; no counter has this number. */
  const READING := -1

  const DEFAULT_STATISTIC_MAX_RT := 60000

  predicate KnownEvent(event: int) {
    0 <= event < EVENT_TOTAL
  }

  datatype BucketFields = BucketFields(counter: seq<int>, minRt: int, maxConcurrency: int)

  type MetricBucket = b: BucketFields | |b.counter| == EVENT_TOTAL
    witness BucketFields([0, 0, 0, 0, 0, 0, 0, 0, 0, 0, 0, 0, 0, 0, 0], 0, 0)

  const EMPTY_BUCKET: MetricBucket := BucketFields([0, 0, 0, 0, 0, 0, 0, 0, 0, 0, 0, 0, 0, 0, 0], DEFAULT_STATISTIC_MAX_RT, 0)

  /** Counts an event. A response time also lowers the minimum; an unknown event is ignored. */
  function AddTo(b: MetricBucket, event: int, count: int): (r: MetricBucket)
    ensures forall e :: Get(r, e) == Get(b, e) + (if e == event && KnownEvent(event) then count else 0)
    ensures r.minRt == if event == RT then Min(b.minRt, count) else b.minRt
    ensures r.maxConcurrency == b.maxConcurrency
  {
    if !KnownEvent(event) then b
    else
      var counted := b.(counter := b.counter[event := b.counter[event] + count]);
      if event == RT && count < b.minRt then counted.(minRt := count) else counted
  }

  function Get(b: MetricBucket, event: int): int {
    if KnownEvent(event) then b.counter[event] else 0
  }

  function UpdateConcurrency(b: MetricBucket, concurrency: int): (r: MetricBucket)
    ensures r.maxConcurrency == Max(b.maxConcurrency, concurrency)
    ensures r.minRt == b.minRt && forall e :: Get(r, e) == Get(b, e)
  {
    if concurrency > b.maxConcurrency then b.(maxConcurrency := concurrency) else b
  }

  /** Total of an event over a list of buckets. */
  function SumOf(buckets: seq<Slot<MetricBucket>>, event: int): int {
    if buckets == [] then 0
    else SumOf(buckets[..|buckets| - 1], event) + Get(buckets[|buckets| - 1].value, event)
  }

  /** Smallest response time over a list of buckets. */
  function MinRtOf(buckets: seq<Slot<MetricBucket>>): int {
    if buckets == [] then DEFAULT_STATISTIC_MAX_RT
    else Min(MinRtOf(buckets[..|buckets| - 1]), buckets[|buckets| - 1].value.minRt)
  }

  /** Largest concurrency over a list of buckets. */
  function MaxConcurrencyOf(buckets: seq<Slot<MetricBucket>>): int {
    if buckets == [] then 0 else Max(MaxConcurrencyOf(buckets[..|buckets| - 1]), buckets[|buckets| - 1].value.maxConcurrency)
  }
}
