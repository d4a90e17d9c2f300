/** `aggregateData` of the dashboard: readings are sorted by time, cut into
    fixed-width time buckets, and each bucket is reduced to one averaged point
    at the bucket's midpoint. */
module Aggregation {
  import opened Common
  import opened Sorting

  /** `Math.floor(ts / intervalMs) * intervalMs`: the start of the interval that
      holds `ts` (Dafny's `/` floors when the divisor is positive). */
  function BucketStart(ts: int, intervalMs: int): int
    requires intervalMs > 0
  {
    (ts / intervalMs) * intervalMs
  }

  lemma BucketStartBounds(ts: int, intervalMs: int)
    requires intervalMs > 0
    ensures BucketStart(ts, intervalMs) % intervalMs == 0
    ensures BucketStart(ts, intervalMs) <= ts < BucketStart(ts, intervalMs) + intervalMs
  {
    DivUnique(BucketStart(ts, intervalMs), intervalMs, ts / intervalMs, 0);
  }

  /** A bucket start `b` is the bucket of every timestamp in `[b, b + intervalMs)`. */
  lemma BucketStartWithin(b: int, offset: int, intervalMs: int)
    requires intervalMs > 0 && b % intervalMs == 0 && 0 <= offset < intervalMs
    ensures BucketStart(b + offset, intervalMs) == b
  {
    var q := b / intervalMs;
    DivUnique(b + offset, intervalMs, q, offset);
  }

  lemma BucketStartMonotone(t1: int, t2: int, intervalMs: int)
    requires intervalMs > 0 && t1 <= t2
    ensures BucketStart(t1, intervalMs) <= BucketStart(t2, intervalMs)
  {
    var q1, q2 := t1 / intervalMs, t2 / intervalMs;
    if q1 > q2 {
      MulAtLeast(q1 - q2, intervalMs);
    }
  }

  /** `Math.round(x * 100) / 100`; `Math.round` rounds halves up (toward +∞). */
  function Round2(x: real): (r: real)
    ensures (r * 100.0).Floor as real == r * 100.0
    ensures x - 0.005 < r <= x + 0.005
  {
    var n := (x * 100.0 + 0.5).Floor;
    assert (n as real / 100.0) * 100.0 == n as real;
    n as real / 100.0
  }

  /** A value already rounded to two decimals is left as it is. */
  lemma Round2Idempotent(x: real)
    ensures Round2(Round2(x)) == Round2(x)
  {
    var n := (x * 100.0 + 0.5).Floor;
    assert Round2(x) * 100.0 == n as real;
    assert (n as real + 0.5).Floor == n;
  }

  datatype Quantity = Temperature | Humidity

  function Reading(m: Measurement, q: Quantity): real
  {
    match q
    case Temperature => m.temperature
    case Humidity => m.humidity
  }

  /** `bucket.reduce((sum, m) => sum + m.<quantity>, 0)`. */
  function Sum(s: seq<Measurement>, q: Quantity): real
  {
    if s == [] then 0.0 else Reading(s[0], q) + Sum(s[1..], q)
  }

  /** The arithmetic mean (the sum divided by `bucket.length`). */
  function Mean(s: seq<Measurement>, q: Quantity): real
    requires s != []
  {
    Sum(s, q) / (|s| as real)
  }

  lemma {:induction false} SumAppend(a: seq<Measurement>, b: seq<Measurement>, q: Quantity)
    ensures Sum(a + b, q) == Sum(a, q) + Sum(b, q)
  {
    if a != [] {
      SumAppend(a[1..], b, q);
      assert (a + b)[1..] == a[1..] + b;
    } else {
      assert a + b == b;
    }
  }

  lemma SumRemove(b: seq<Measurement>, i: int, q: Quantity)
    requires 0 <= i < |b|
    ensures Sum(b, q) == Reading(b[i], q) + Sum(b[..i] + b[i + 1..], q)
  {
    assert b == b[..i] + [b[i]] + b[i + 1..];
    SumAppend(b[..i] + [b[i]], b[i + 1..], q);
    SumAppend(b[..i], [b[i]], q);
    SumAppend(b[..i], b[i + 1..], q);
    assert Sum([b[i]], q) == Reading(b[i], q) by { assert [b[i]][1..] == []; }
  }

  lemma MultisetRemove(b: seq<Measurement>, i: int)
    requires 0 <= i < |b|
    ensures multiset(b[..i] + b[i + 1..]) == multiset(b) - multiset{b[i]}
  {
    assert b == b[..i] + [b[i]] + b[i + 1..];
  }

  /** Sums, and so means, depend only on which readings there are, not on their order. */
  lemma {:induction false} SumPermutation(a: seq<Measurement>, b: seq<Measurement>, q: Quantity)
    requires multiset(a) == multiset(b)
    ensures Sum(a, q) == Sum(b, q)
  {
    if a != [] {
      assert a[0] in multiset(b);
      var i :| 0 <= i < |b| && b[i] == a[0];
      var rest := b[..i] + b[i + 1..];
      MultisetRemove(b, i);
      assert a == [a[0]] + a[1..];
      assert multiset(a[1..]) == multiset(a) - multiset{a[0]};
      SumPermutation(a[1..], rest, q);
      SumRemove(b, i, q);
    }
  }

  lemma MeanPermutation(a: seq<Measurement>, b: seq<Measurement>, q: Quantity)
    requires a != [] && multiset(a) == multiset(b)
    ensures b != [] && Mean(a, q) == Mean(b, q)
  {
    SumPermutation(a, b, q);
    assert |a| == |multiset(a)| == |multiset(b)| == |b|;
  }

  /** The readings of `s` whose timestamps fall in the bucket starting at `b`, in order. */
  function InBucket(s: seq<Measurement>, b: int, intervalMs: int): seq<Measurement>
    requires intervalMs > 0
  {
    if s == [] then []
    else
      InBucket(s[..|s| - 1], b, intervalMs)
      + (if BucketStart(s[|s| - 1].timestamp, intervalMs) == b then [s[|s| - 1]] else [])
  }

  lemma {:induction false} InBucketCount(s: seq<Measurement>, b: int, intervalMs: int, m: Measurement)
    requires intervalMs > 0
    ensures multiset(InBucket(s, b, intervalMs))[m]
         == if BucketStart(m.timestamp, intervalMs) == b then multiset(s)[m] else 0
  {
    if s != [] {
      InBucketCount(s[..|s| - 1], b, intervalMs, m);
      SnocSplit(s);
    }
  }

  /** Readings of a bucket are the same whatever order the input had. */
  lemma InBucketPermutation(a: seq<Measurement>, c: seq<Measurement>, b: int, intervalMs: int)
    requires intervalMs > 0 && multiset(a) == multiset(c)
    ensures multiset(InBucket(a, b, intervalMs)) == multiset(InBucket(c, b, intervalMs))
  {
    forall m ensures multiset(InBucket(a, b, intervalMs))[m] == multiset(InBucket(c, b, intervalMs))[m] {
      InBucketCount(a, b, intervalMs, m);
      InBucketCount(c, b, intervalMs, m);
    }
  }

  lemma {:induction false} InBucketAppend(s: seq<Measurement>, t: seq<Measurement>, b: int, intervalMs: int)
    requires intervalMs > 0
    ensures InBucket(s + t, b, intervalMs) == InBucket(s, b, intervalMs) + InBucket(t, b, intervalMs)
  {
    if t == [] {
      assert s + t == s;
    } else {
      InBucketAppend(s, t[..|t| - 1], b, intervalMs);
      assert (s + t)[..|s + t| - 1] == s + t[..|t| - 1];
    }
  }

  lemma {:induction false} InBucketUniform(s: seq<Measurement>, b: int, c: int, intervalMs: int)
    requires intervalMs > 0
    requires forall m :: m in s ==> BucketStart(m.timestamp, intervalMs) == c
    ensures InBucket(s, b, intervalMs) == if b == c then s else []
  {
    if s != [] {
      InBucketUniform(s[..|s| - 1], b, c, intervalMs);
      SnocSplit(s);
    }
  }

  /** A run of consecutive sorted readings that share a bucket start. */
  datatype Bucket = Bucket(start: int, members: seq<Measurement>)

  /** The buckets the dashboard's loop builds from `s`, one reading at a time:
      a reading joins the current bucket when it has the same bucket start,
      and opens a new bucket otherwise. */
  function Groups(s: seq<Measurement>, intervalMs: int): seq<Bucket>
    requires intervalMs > 0
  {
    if s == [] then [] else AddReading(Groups(s[..|s| - 1], intervalMs), s[|s| - 1], intervalMs)
  }

  /** One step of the loop: `x` joins the last bucket when it has the same
      bucket start, and opens a new bucket otherwise. */
  function AddReading(g: seq<Bucket>, x: Measurement, intervalMs: int): seq<Bucket>
    requires intervalMs > 0
  {
    var b := BucketStart(x.timestamp, intervalMs);
    if g != [] && g[|g| - 1].start == b then g[..|g| - 1] + [Bucket(b, g[|g| - 1].members + [x])]
    else g + [Bucket(b, [x])]
  }

  /** All readings of the buckets, bucket after bucket. */
  function Flatten(g: seq<Bucket>): seq<Measurement>
  {
    if g == [] then [] else Flatten(g[..|g| - 1]) + g[|g| - 1].members
  }

  /** Every bucket is non-empty and holds only readings of `s` whose bucket start is its own. */
  ghost predicate WellBucketed(g: seq<Bucket>, s: seq<Measurement>, intervalMs: int)
    requires intervalMs > 0
  {
    forall k :: 0 <= k < |g| ==>
      g[k].members != [] &&
      forall m :: m in g[k].members ==> m in s && BucketStart(m.timestamp, intervalMs) == g[k].start
  }

  ghost predicate StrictlyIncreasingStarts(g: seq<Bucket>) {
    forall j, k :: 0 <= j < k < |g| ==> g[j].start < g[k].start
  }

  lemma {:induction false} GroupsWellBucketed(s: seq<Measurement>, intervalMs: int)
    requires intervalMs > 0
    ensures WellBucketed(Groups(s, intervalMs), s, intervalMs)
  {
    if s != [] {
      var p, x := s[..|s| - 1], s[|s| - 1];
      GroupsWellBucketed(p, intervalMs);
      var g', g := Groups(p, intervalMs), Groups(s, intervalMs);
      var b := BucketStart(x.timestamp, intervalMs);
      assert forall m :: m in p ==> m in s;
      if g' != [] && g'[|g'| - 1].start == b {
        assert g == g'[..|g'| - 1] + [Bucket(b, g'[|g'| - 1].members + [x])];
        forall k | 0 <= k < |g|
          ensures g[k].members != []
          ensures forall m :: m in g[k].members ==> m in s && BucketStart(m.timestamp, intervalMs) == g[k].start
        {
          if k < |g'| - 1 { assert g[k] == g'[k]; }
        }
      } else {
        assert g == g' + [Bucket(b, [x])];
        forall k | 0 <= k < |g|
          ensures g[k].members != []
          ensures forall m :: m in g[k].members ==> m in s && BucketStart(m.timestamp, intervalMs) == g[k].start
        {
          if k < |g'| { assert g[k] == g'[k]; }
        }
      }
    }
  }

  /** Appending a bucket appends its readings. */
  lemma FlattenSnoc(g: seq<Bucket>, last: Bucket)
    ensures Flatten(g + [last]) == Flatten(g) + last.members
  {
    assert (g + [last])[..|g|] == g;
  }

  /** Extending the last bucket by `x` appends `x`. */
  lemma FlattenExtend(g: seq<Bucket>, b: int, x: Measurement)
    requires g != []
    ensures Flatten(g[..|g| - 1] + [Bucket(b, g[|g| - 1].members + [x])]) == Flatten(g) + [x]
  {
    var p, last := g[..|g| - 1], g[|g| - 1];
    FlattenSnoc(p, Bucket(b, last.members + [x]));
    SnocSplit(g);
    FlattenSnoc(p, last);
  }

  /** Adding a reading appends it to the readings of the buckets. */
  lemma FlattenAdd(g: seq<Bucket>, x: Measurement, intervalMs: int)
    requires intervalMs > 0
    ensures Flatten(AddReading(g, x, intervalMs)) == Flatten(g) + [x]
  {
    var b := BucketStart(x.timestamp, intervalMs);
    if g != [] && g[|g| - 1].start == b {
      FlattenExtend(g, b, x);
    } else {
      FlattenSnoc(g, Bucket(b, [x]));
    }
  }

  /** The buckets, read in order, give back exactly the input: every reading is in
      exactly one bucket, and bucket sizes add up to the input length. */
  lemma {:induction false} GroupsFlatten(s: seq<Measurement>, intervalMs: int)
    requires intervalMs > 0
    ensures Flatten(Groups(s, intervalMs)) == s
  {
    if s != [] {
      var p, x := s[..|s| - 1], s[|s| - 1];
      var g := Groups(p, intervalMs);
      assert Groups(s, intervalMs) == AddReading(g, x, intervalMs);
      GroupsFlatten(p, intervalMs);
      FlattenAdd(g, x, intervalMs);
      SnocSplit(s);
    }
  }

  /** Extending the last bucket keeps every start. */
  lemma StartsExtend(g: seq<Bucket>, b: int, x: Measurement)
    requires g != [] && g[|g| - 1].start == b && StrictlyIncreasingStarts(g)
    ensures StrictlyIncreasingStarts(g[..|g| - 1] + [Bucket(b, g[|g| - 1].members + [x])])
  {
    var h := g[..|g| - 1] + [Bucket(b, g[|g| - 1].members + [x])];
    assert forall k :: 0 <= k < |h| ==> h[k].start == g[k].start;
  }

  /** A bucket opened after the last one keeps the starts increasing. */
  lemma StartsSnoc(g: seq<Bucket>, last: Bucket)
    requires StrictlyIncreasingStarts(g) && (g != [] ==> g[|g| - 1].start < last.start)
    ensures StrictlyIncreasingStarts(g + [last])
  {
    var h := g + [last];
    forall j, k | 0 <= j < k < |h| ensures h[j].start < h[k].start {
      if k < |g| { assert h[j] == g[j] && h[k] == g[k]; }
      else if j < |g| - 1 { assert h[j] == g[j] && g[j].start < g[|g| - 1].start; }
    }
  }

  /** In a sorted sequence a reading before the last has a bucket start no later than the last one's. */
  lemma SortedPrefixBucket(s: seq<Measurement>, m: Measurement, intervalMs: int)
    requires intervalMs > 0 && s != [] && SortedByTimestamp(s) && m in s[..|s| - 1]
    ensures BucketStart(m.timestamp, intervalMs) <= BucketStart(s[|s| - 1].timestamp, intervalMs)
  {
    var i :| 0 <= i < |s| - 1 && s[..|s| - 1][i] == m;
    assert s[i] == m;
    BucketStartMonotone(m.timestamp, s[|s| - 1].timestamp, intervalMs);
  }

  /** On sorted input the bucket starts strictly increase. */
  lemma {:induction false} GroupsIncreasing(s: seq<Measurement>, intervalMs: int)
    requires intervalMs > 0 && SortedByTimestamp(s)
    ensures StrictlyIncreasingStarts(Groups(s, intervalMs))
  {
    if s != [] {
      var p, x := s[..|s| - 1], s[|s| - 1];
      assert SortedByTimestamp(p);
      GroupsIncreasing(p, intervalMs);
      var g' := Groups(p, intervalMs);
      var b := BucketStart(x.timestamp, intervalMs);
      if g' != [] && g'[|g'| - 1].start == b {
        StartsExtend(g', b, x);
      } else {
        if g' != [] {
          GroupsWellBucketed(p, intervalMs);
          var last := g'[|g'| - 1];
          assert last.members[0] in last.members;
          SortedPrefixBucket(s, last.members[0], intervalMs);
        }
        StartsSnoc(g', Bucket(b, [x]));
      }
    }
  }

  /** A reading's bucket is found by reading the buckets in order: the bucket
      starting at `g[k].start` holds exactly `g[k].members`. */
  lemma {:induction false} FlattenInBucketAbsent(g: seq<Bucket>, s: seq<Measurement>, intervalMs: int, b: int)
    requires intervalMs > 0 && WellBucketed(g, s, intervalMs)
    requires forall k :: 0 <= k < |g| ==> g[k].start != b
    ensures InBucket(Flatten(g), b, intervalMs) == []
  {
    if g != [] {
      var p, last := g[..|g| - 1], g[|g| - 1];
      FlattenInBucketAbsent(p, s, intervalMs, b);
      InBucketAppend(Flatten(p), last.members, b, intervalMs);
      InBucketUniform(last.members, b, last.start, intervalMs);
    }
  }

  lemma WellBucketedPrefix(g: seq<Bucket>, s: seq<Measurement>, intervalMs: int, n: int)
    requires intervalMs > 0 && WellBucketed(g, s, intervalMs) && 0 <= n <= |g|
    ensures WellBucketed(g[..n], s, intervalMs)
  {
    forall k | 0 <= k < n ensures g[..n][k] == g[k] { }
  }

  /** The readings of bucket `b` among all buckets: those among the front
      buckets, then the last bucket's if it is bucket `b`. */
  lemma FlattenInBucketStep(g: seq<Bucket>, s: seq<Measurement>, intervalMs: int, b: int)
    requires intervalMs > 0 && g != [] && WellBucketed(g, s, intervalMs)
    ensures InBucket(Flatten(g), b, intervalMs) ==
      InBucket(Flatten(g[..|g| - 1]), b, intervalMs) + (if b == g[|g| - 1].start then g[|g| - 1].members else [])
  {
    var p, last := g[..|g| - 1], g[|g| - 1];
    assert forall m :: m in last.members ==> BucketStart(m.timestamp, intervalMs) == last.start;
    InBucketAppend(Flatten(p), last.members, b, intervalMs);
    InBucketUniform(last.members, b, last.start, intervalMs);
  }

  /** The front of buckets with increasing starts has increasing starts, all below the last one. */
  lemma StartsPrefix(g: seq<Bucket>, p: seq<Bucket>)
    requires g != [] && StrictlyIncreasingStarts(g) && p == g[..|g| - 1]
    ensures StrictlyIncreasingStarts(p)
    ensures forall j :: 0 <= j < |p| ==> p[j].start < g[|g| - 1].start
  {
    assert forall j :: 0 <= j < |p| ==> p[j] == g[j];
  }

  lemma {:induction false} FlattenInBucketAt(g: seq<Bucket>, s: seq<Measurement>, intervalMs: int, k: int)
    requires intervalMs > 0 && WellBucketed(g, s, intervalMs) && StrictlyIncreasingStarts(g)
    requires 0 <= k < |g|
    ensures InBucket(Flatten(g), g[k].start, intervalMs) == g[k].members
  {
    var p := g[..|g| - 1];
    var b := g[k].start;
    WellBucketedPrefix(g, s, intervalMs, |g| - 1);
    StartsPrefix(g, p);
    FlattenInBucketStep(g, s, intervalMs, b);
    if k == |g| - 1 {
      FlattenInBucketAbsent(p, s, intervalMs, b);
    } else {
      assert p[k] == g[k];
      FlattenInBucketAt(p, s, intervalMs, k);
    }
  }

  /** The point a bucket becomes: the bucket's midpoint, the two means rounded to
      two decimals, and the device of the bucket's first reading. */
  function Point(b: Bucket, intervalMs: int): Measurement
    requires b.members != []
  {
    Measurement(b.members[0].deviceId, b.start + intervalMs / 2,
                Round2(Mean(b.members, Temperature)), Round2(Mean(b.members, Humidity)))
  }

  predicate NonEmptyBuckets(g: seq<Bucket>) {
    forall k :: 0 <= k < |g| ==> g[k].members != []
  }

  function Points(g: seq<Bucket>, intervalMs: int): seq<Measurement>
    requires NonEmptyBuckets(g)
  {
    if g == [] then [] else Points(g[..|g| - 1], intervalMs) + [Point(g[|g| - 1], intervalMs)]
  }

  lemma {:induction false} PointsAt(g: seq<Bucket>, intervalMs: int)
    requires NonEmptyBuckets(g)
    ensures |Points(g, intervalMs)| == |g|
    ensures forall k :: 0 <= k < |g| ==> Points(g, intervalMs)[k] == Point(g[k], intervalMs)
  {
    if g != [] {
      PointsAt(g[..|g| - 1], intervalMs);
    }
  }

  /** `intervalMinutes * 60 * 1000`. */
  function IntervalMs(intervalMinutes: int): int
  {
    intervalMinutes * 60 * 1000
  }

  /** What `aggregateData(data, intervalMinutes)` returns. */
  function Aggregate(data: seq<Measurement>, intervalMinutes: int): seq<Measurement>
    requires intervalMinutes > 0
  {
    if |data| == 0 then []
    else
      var intervalMs := IntervalMs(intervalMinutes);
      GroupsNonEmpty(Sort(data), intervalMs);
      Points(Groups(Sort(data), intervalMs), intervalMs)
  }

  lemma GroupsNonEmpty(s: seq<Measurement>, intervalMs: int)
    requires intervalMs > 0
    ensures NonEmptyBuckets(Groups(s, intervalMs))
  {
    GroupsWellBucketed(s, intervalMs);
  }

  /** How one more reading changes the buckets (one step of the loop). */
  lemma GroupsSnoc(p: seq<Measurement>, x: Measurement, intervalMs: int)
    requires intervalMs > 0
    ensures Groups(p + [x], intervalMs) ==
      var g := Groups(p, intervalMs);
      var b := BucketStart(x.timestamp, intervalMs);
      if g != [] && g[|g| - 1].start == b then g[..|g| - 1] + [Bucket(b, g[|g| - 1].members + [x])]
      else g + [Bucket(b, [x])]
  {
    assert (p + [x])[..|p + [x]| - 1] == p;
  }

  lemma PointsSnoc(g: seq<Bucket>, b: Bucket, intervalMs: int)
    requires NonEmptyBuckets(g) && b.members != []
    ensures NonEmptyBuckets(g + [b])
    ensures Points(g + [b], intervalMs) == Points(g, intervalMs) + [Point(b, intervalMs)]
  {
    assert (g + [b])[..|g|] == g;
  }

  /** What the loop of `AggregateData` knows after reading `sorted[..i]`: the buckets
      read so far are all closed into points except the last, which is the current one. */
  ghost predicate LoopInvariant(sorted: seq<Measurement>, i: int, intervalMs: int, bucketStart: int,
                                currentBucket: seq<Measurement>, aggregated: seq<Measurement>)
    requires intervalMs > 0 && 0 < i <= |sorted|
  {
    var g := Groups(sorted[..i], intervalMs);
    g != [] && g[|g| - 1] == Bucket(bucketStart, currentBucket) && currentBucket != [] &&
    NonEmptyBuckets(g[..|g| - 1]) && aggregated == Points(g[..|g| - 1], intervalMs)
  }

  lemma LoopFirst(sorted: seq<Measurement>, intervalMs: int)
    requires intervalMs > 0 && sorted != []
    ensures LoopInvariant(sorted, 1, intervalMs, BucketStart(sorted[0].timestamp, intervalMs), [sorted[0]], [])
  {
    assert sorted[..1] == [] + [sorted[0]];
    GroupsSnoc([], sorted[0], intervalMs);
  }

  lemma LoopJoin(sorted: seq<Measurement>, i: int, intervalMs: int, bucketStart: int,
                 currentBucket: seq<Measurement>, aggregated: seq<Measurement>)
    requires intervalMs > 0 && 0 < i < |sorted|
    requires LoopInvariant(sorted, i, intervalMs, bucketStart, currentBucket, aggregated)
    requires BucketStart(sorted[i].timestamp, intervalMs) == bucketStart
    ensures LoopInvariant(sorted, i + 1, intervalMs, bucketStart, currentBucket + [sorted[i]], aggregated)
  {
    var g := Groups(sorted[..i], intervalMs);
    assert sorted[..i + 1] == sorted[..i] + [sorted[i]];
    GroupsSnoc(sorted[..i], sorted[i], intervalMs);
    assert Groups(sorted[..i + 1], intervalMs)[..|g| - 1] == g[..|g| - 1];
  }

  lemma LoopClose(sorted: seq<Measurement>, i: int, intervalMs: int, bucketStart: int,
                  currentBucket: seq<Measurement>, aggregated: seq<Measurement>)
    requires intervalMs > 0 && 0 < i < |sorted|
    requires LoopInvariant(sorted, i, intervalMs, bucketStart, currentBucket, aggregated)
    requires BucketStart(sorted[i].timestamp, intervalMs) != bucketStart
    ensures LoopInvariant(sorted, i + 1, intervalMs, BucketStart(sorted[i].timestamp, intervalMs), [sorted[i]],
                          aggregated + [Point(Bucket(bucketStart, currentBucket), intervalMs)])
  {
    var g := Groups(sorted[..i], intervalMs);
    assert sorted[..i + 1] == sorted[..i] + [sorted[i]];
    GroupsSnoc(sorted[..i], sorted[i], intervalMs);
    PointsSnoc(g[..|g| - 1], g[|g| - 1], intervalMs);
    assert g[..|g| - 1] + [g[|g| - 1]] == g;
    assert Groups(sorted[..i + 1], intervalMs)[..|g|] == g;
  }

  lemma LoopLast(sorted: seq<Measurement>, intervalMs: int, bucketStart: int,
                 currentBucket: seq<Measurement>, aggregated: seq<Measurement>)
    requires intervalMs > 0 && sorted != []
    requires LoopInvariant(sorted, |sorted|, intervalMs, bucketStart, currentBucket, aggregated)
    ensures NonEmptyBuckets(Groups(sorted, intervalMs))
    ensures aggregated + [Point(Bucket(bucketStart, currentBucket), intervalMs)] == Points(Groups(sorted, intervalMs), intervalMs)
  {
    assert sorted[..|sorted|] == sorted;
    var g := Groups(sorted, intervalMs);
    GroupsNonEmpty(sorted, intervalMs);
    PointsSnoc(g[..|g| - 1], g[|g| - 1], intervalMs);
    assert g[..|g| - 1] + [g[|g| - 1]] == g;
  }

  /** The dashboard's loop: one pass over a sorted copy of `data`, extending the
      current bucket while the bucket start stays the same and closing it into a
      point when it changes. */
  method AggregateData(data: seq<Measurement>, intervalMinutes: int) returns (aggregated: seq<Measurement>)
    requires intervalMinutes > 0
    ensures aggregated == Aggregate(data, intervalMinutes)
  {
    if |data| == 0 {
      return [];
    }
    aggregated := [];
    var intervalMs := intervalMinutes * 60 * 1000;
    var sorted := Sort(data);
    var currentBucket: seq<Measurement> := [];
    var bucketStart := BucketStart(sorted[0].timestamp, intervalMs);
    for i := 0 to |sorted|
      invariant i == 0 ==> currentBucket == [] && aggregated == [] && bucketStart == BucketStart(sorted[0].timestamp, intervalMs)
      invariant i > 0 ==> LoopInvariant(sorted, i, intervalMs, bucketStart, currentBucket, aggregated)
    {
      var measurement := sorted[i];
      var measurementBucket := BucketStart(measurement.timestamp, intervalMs);
      if i == 0 {
        LoopFirst(sorted, intervalMs);
      } else if measurementBucket == bucketStart {
        LoopJoin(sorted, i, intervalMs, bucketStart, currentBucket, aggregated);
      } else {
        LoopClose(sorted, i, intervalMs, bucketStart, currentBucket, aggregated);
      }
      if measurementBucket == bucketStart {
        currentBucket := currentBucket + [measurement];
      } else {
        if |currentBucket| > 0 {
          aggregated := aggregated + [Point(Bucket(bucketStart, currentBucket), intervalMs)];
        }
        currentBucket := [measurement];
        bucketStart := measurementBucket;
      }
    }
    LoopLast(sorted, intervalMs, bucketStart, currentBucket, aggregated);
    if |currentBucket| > 0 {
      aggregated := aggregated + [Point(Bucket(bucketStart, currentBucket), intervalMs)];
    }
  }

  lemma AggregatePoint(data: seq<Measurement>, intervalMinutes: int, k: int)
    requires intervalMinutes > 0 && data != []
    requires 0 <= k < |Groups(Sort(data), IntervalMs(intervalMinutes))|
    ensures Groups(Sort(data), IntervalMs(intervalMinutes))[k].members != []
    ensures |Aggregate(data, intervalMinutes)| == |Groups(Sort(data), IntervalMs(intervalMinutes))|
    ensures Aggregate(data, intervalMinutes)[k] == Point(Groups(Sort(data), IntervalMs(intervalMinutes))[k], IntervalMs(intervalMinutes))
  {
    GroupsNonEmpty(Sort(data), IntervalMs(intervalMinutes));
    PointsAt(Groups(Sort(data), IntervalMs(intervalMinutes)), IntervalMs(intervalMinutes));
  }

  lemma AggregateLength(data: seq<Measurement>, intervalMinutes: int)
    requires intervalMinutes > 0 && data != []
    ensures |Aggregate(data, intervalMinutes)| == |Groups(Sort(data), IntervalMs(intervalMinutes))|
  {
    GroupsNonEmpty(Sort(data), IntervalMs(intervalMinutes));
    PointsAt(Groups(Sort(data), IntervalMs(intervalMinutes)), IntervalMs(intervalMinutes));
  }

  /** The first reading of bucket `k` is a reading of the input, in that bucket. */
  lemma GroupFirst(s: seq<Measurement>, intervalMs: int, k: int)
    requires intervalMs > 0 && 0 <= k < |Groups(s, intervalMs)|
    ensures Groups(s, intervalMs)[k].members != []
    ensures Groups(s, intervalMs)[k].members[0] in s
    ensures BucketStart(Groups(s, intervalMs)[k].members[0].timestamp, intervalMs) == Groups(s, intervalMs)[k].start
  {
    GroupsWellBucketed(s, intervalMs);
    assert Groups(s, intervalMs)[k].members[0] in Groups(s, intervalMs)[k].members;
  }

  lemma AggregateEmpty(intervalMinutes: int)
    requires intervalMinutes > 0
    ensures Aggregate([], intervalMinutes) == []
  {
  }

  /** `m` is a reading of one of the buckets. */
  lemma {:induction false} FlattenMember(g: seq<Bucket>, m: Measurement)
    requires m in Flatten(g)
    ensures exists k :: 0 <= k < |g| && m in g[k].members
  {
    var p, last := g[..|g| - 1], g[|g| - 1];
    if m !in last.members {
      assert m in Flatten(p);
      FlattenMember(p, m);
      var k :| 0 <= k < |p| && m in p[k].members;
      assert g[k] == p[k];
    }
  }

  /** `t` is the midpoint of the bucket of some reading of `data`. */
  predicate IsMidpointOfSome(data: seq<Measurement>, t: int, intervalMs: int)
    requires intervalMs > 0
  {
    exists m :: m in data && t == BucketStart(m.timestamp, intervalMs) + intervalMs / 2
  }

  /** Every output timestamp is the midpoint `b + intervalMs / 2` of the bucket
      `b` of some input reading. */
  lemma AggregateMidpoints(data: seq<Measurement>, intervalMinutes: int)
    requires intervalMinutes > 0
    ensures forall k :: 0 <= k < |Aggregate(data, intervalMinutes)| ==>
      Aggregate(data, intervalMinutes)[k].timestamp % IntervalMs(intervalMinutes) == IntervalMs(intervalMinutes) / 2
    ensures forall k :: 0 <= k < |Aggregate(data, intervalMinutes)| ==>
      IsMidpointOfSome(data, Aggregate(data, intervalMinutes)[k].timestamp, IntervalMs(intervalMinutes))
  {
    if data != [] {
      var out, intervalMs := Aggregate(data, intervalMinutes), IntervalMs(intervalMinutes);
      var g := Groups(Sort(data), intervalMs);
      AggregateLength(data, intervalMinutes);
      forall k | 0 <= k < |out|
        ensures out[k].timestamp % intervalMs == intervalMs / 2
        ensures IsMidpointOfSome(data, out[k].timestamp, intervalMs)
      {
        AggregatePoint(data, intervalMinutes, k);
        GroupFirst(Sort(data), intervalMs, k);
        var m := g[k].members[0];
        assert m in multiset(Sort(data));
        assert m in data;
        BucketStartBounds(m.timestamp, intervalMs);
        DivUnique(g[k].start + intervalMs / 2, intervalMs, m.timestamp / intervalMs, intervalMs / 2);
      }
    }
  }

  /** Output timestamps strictly increase. */
  lemma AggregateIncreasing(data: seq<Measurement>, intervalMinutes: int)
    requires intervalMinutes > 0
    ensures forall j, k :: 0 <= j < k < |Aggregate(data, intervalMinutes)| ==>
      Aggregate(data, intervalMinutes)[j].timestamp < Aggregate(data, intervalMinutes)[k].timestamp
  {
    if data != [] {
      var out, intervalMs := Aggregate(data, intervalMinutes), IntervalMs(intervalMinutes);
      GroupsIncreasing(Sort(data), intervalMs);
      AggregateLength(data, intervalMinutes);
      forall j, k | 0 <= j < k < |out| ensures out[j].timestamp < out[k].timestamp {
        AggregatePoint(data, intervalMinutes, j);
        AggregatePoint(data, intervalMinutes, k);
      }
    }
  }

  /** Every reading of `s` lies in a bucket of `Groups(s, intervalMs)` that starts at its own bucket start. */
  lemma GroupOf(s: seq<Measurement>, intervalMs: int, m: Measurement) returns (k: int)
    requires intervalMs > 0 && m in s
    ensures 0 <= k < |Groups(s, intervalMs)| && m in Groups(s, intervalMs)[k].members
    ensures Groups(s, intervalMs)[k].start == BucketStart(m.timestamp, intervalMs)
  {
    var g := Groups(s, intervalMs);
    GroupsFlatten(s, intervalMs);
    FlattenMember(g, m);
    k :| 0 <= k < |g| && m in g[k].members;
    GroupsWellBucketed(s, intervalMs);
  }

  /** Every input reading falls into an emitted bucket; since timestamps strictly
      increase, into exactly one. */
  lemma AggregateCovers(data: seq<Measurement>, intervalMinutes: int, m: Measurement)
    requires intervalMinutes > 0 && m in data
    ensures exists k :: (0 <= k < |Aggregate(data, intervalMinutes)| &&
      Aggregate(data, intervalMinutes)[k].timestamp ==
        BucketStart(m.timestamp, IntervalMs(intervalMinutes)) + IntervalMs(intervalMinutes) / 2)
  {
    assert m in multiset(Sort(data));
    var k := GroupOf(Sort(data), IntervalMs(intervalMinutes), m);
    AggregatePoint(data, intervalMinutes, k);
  }

  /** The distinct bucket starts of the readings. */
  function BucketSet(data: seq<Measurement>, intervalMs: int): set<int>
    requires intervalMs > 0
  {
    set m | m in data :: BucketStart(m.timestamp, intervalMs)
  }

  function StartSet(g: seq<Bucket>): set<int>
  {
    if g == [] then {} else StartSet(g[..|g| - 1]) + {g[|g| - 1].start}
  }

  lemma {:induction false} StartSetMembers(g: seq<Bucket>, x: int)
    ensures x in StartSet(g) <==> exists k :: 0 <= k < |g| && g[k].start == x
  {
    if g != [] {
      var p := g[..|g| - 1];
      StartSetMembers(p, x);
      if x in StartSet(p) {
        var k :| 0 <= k < |p| && p[k].start == x;
        assert g[k] == p[k];
      }
      if exists k :: 0 <= k < |g| && g[k].start == x {
        var k :| 0 <= k < |g| && g[k].start == x;
        if k < |p| { assert p[k] == g[k]; }
      }
    }
  }

  lemma {:induction false} StartSetSize(g: seq<Bucket>)
    requires StrictlyIncreasingStarts(g)
    ensures |StartSet(g)| == |g|
  {
    if g != [] {
      var p := g[..|g| - 1];
      assert StrictlyIncreasingStarts(p);
      StartSetSize(p);
      StartSetMembers(p, g[|g| - 1].start);
    }
  }

  lemma {:induction false} BucketsAtMostReadings(g: seq<Bucket>)
    requires NonEmptyBuckets(g)
    ensures |g| <= |Flatten(g)|
  {
    if g != [] {
      assert NonEmptyBuckets(g[..|g| - 1]);
      BucketsAtMostReadings(g[..|g| - 1]);
    }
  }

  lemma GroupStartsAreBuckets(data: seq<Measurement>, intervalMs: int)
    requires intervalMs > 0
    ensures StartSet(Groups(Sort(data), intervalMs)) == BucketSet(data, intervalMs)
  {
    var g := Groups(Sort(data), intervalMs);
    forall x | x in StartSet(g) ensures x in BucketSet(data, intervalMs) {
      StartSetMembers(g, x);
      var k :| 0 <= k < |g| && g[k].start == x;
      GroupFirst(Sort(data), intervalMs, k);
      var m := g[k].members[0];
      assert m in multiset(Sort(data));
    }
    forall x | x in BucketSet(data, intervalMs) ensures x in StartSet(g) {
      var m :| m in data && BucketStart(m.timestamp, intervalMs) == x;
      assert m in multiset(Sort(data));
      var k := GroupOf(Sort(data), intervalMs, m);
      StartSetMembers(g, x);
    }
  }

  /** One point per distinct bucket, so never more points than readings. */
  lemma AggregateCount(data: seq<Measurement>, intervalMinutes: int)
    requires intervalMinutes > 0
    ensures |Aggregate(data, intervalMinutes)| == |BucketSet(data, IntervalMs(intervalMinutes))|
    ensures |Aggregate(data, intervalMinutes)| <= |data|
    ensures data != [] ==> |Aggregate(data, intervalMinutes)| >= 1
  {
    var intervalMs := IntervalMs(intervalMinutes);
    if data == [] {
      assert BucketSet(data, intervalMs) == {};
    } else {
      var g := Groups(Sort(data), intervalMs);
      AggregateLength(data, intervalMinutes);
      GroupsIncreasing(Sort(data), intervalMs);
      StartSetSize(g);
      GroupStartsAreBuckets(data, intervalMs);
      GroupsNonEmpty(Sort(data), intervalMs);
      BucketsAtMostReadings(g);
      GroupsFlatten(Sort(data), intervalMs);
      assert BucketStart(data[0].timestamp, intervalMs) in BucketSet(data, intervalMs);
    }
  }

  /** `p` carries the rounded means of the readings of `data` in the bucket it stands for. */
  predicate MeansOf(data: seq<Measurement>, p: Measurement, intervalMs: int)
    requires intervalMs > 0
  {
    var bucket := InBucket(data, p.timestamp - intervalMs / 2, intervalMs);
    bucket != [] &&
    p.temperature == Round2(Mean(bucket, Temperature)) &&
    p.humidity == Round2(Mean(bucket, Humidity))
  }

  /** `p` carries the device of the first reading of its bucket, in timestamp order. */
  predicate DeviceOf(data: seq<Measurement>, p: Measurement, intervalMs: int)
    requires intervalMs > 0
  {
    var bucket := InBucket(Sort(data), p.timestamp - intervalMs / 2, intervalMs);
    bucket != [] && p.deviceId == bucket[0].deviceId
  }

  /** Bucket `k` of the sorted readings is exactly the readings in its bucket. */
  lemma GroupIsBucket(data: seq<Measurement>, intervalMs: int, k: int)
    requires intervalMs > 0 && 0 <= k < |Groups(Sort(data), intervalMs)|
    ensures InBucket(Sort(data), Groups(Sort(data), intervalMs)[k].start, intervalMs) == Groups(Sort(data), intervalMs)[k].members
  {
    var sorted := Sort(data);
    GroupsWellBucketed(sorted, intervalMs);
    GroupsIncreasing(sorted, intervalMs);
    GroupsFlatten(sorted, intervalMs);
    FlattenInBucketAt(Groups(sorted, intervalMs), sorted, intervalMs, k);
  }

  lemma AggregateMeansAt(data: seq<Measurement>, intervalMinutes: int, k: int)
    requires intervalMinutes > 0 && 0 <= k < |Aggregate(data, intervalMinutes)|
    ensures MeansOf(data, Aggregate(data, intervalMinutes)[k], IntervalMs(intervalMinutes))
  {
    var intervalMs := IntervalMs(intervalMinutes);
    var g := Groups(Sort(data), intervalMs);
    AggregateLength(data, intervalMinutes);
    AggregatePoint(data, intervalMinutes, k);
    GroupIsBucket(data, intervalMs, k);
    var b := g[k].start;
    assert Aggregate(data, intervalMinutes)[k].timestamp - intervalMs / 2 == b;
    InBucketPermutation(Sort(data), data, b, intervalMs);
    MeanPermutation(g[k].members, InBucket(data, b, intervalMs), Temperature);
    MeanPermutation(g[k].members, InBucket(data, b, intervalMs), Humidity);
  }

  /** A bucket that is exactly the sorted readings in it yields a point carrying its first reading's device. */
  lemma DeviceOfPoint(data: seq<Measurement>, b: Bucket, intervalMs: int)
    requires intervalMs > 0 && b.members != [] && InBucket(Sort(data), b.start, intervalMs) == b.members
    ensures DeviceOf(data, Point(b, intervalMs), intervalMs)
  {
    assert Point(b, intervalMs).timestamp - intervalMs / 2 == b.start;
  }

  lemma AggregateDeviceAt(data: seq<Measurement>, intervalMinutes: int, k: int)
    requires intervalMinutes > 0 && 0 <= k < |Aggregate(data, intervalMinutes)|
    ensures DeviceOf(data, Aggregate(data, intervalMinutes)[k], IntervalMs(intervalMinutes))
  {
    var intervalMs := IntervalMs(intervalMinutes);
    AggregateLength(data, intervalMinutes);
    AggregatePoint(data, intervalMinutes, k);
    GroupIsBucket(data, intervalMs, k);
    DeviceOfPoint(data, Groups(Sort(data), intervalMs)[k], intervalMs);
  }

  /** Each point carries the rounded mean temperature and humidity of all
      readings in its bucket, and the device of the bucket's first reading. */
  lemma AggregateValues(data: seq<Measurement>, intervalMinutes: int)
    requires intervalMinutes > 0
    ensures forall k :: 0 <= k < |Aggregate(data, intervalMinutes)| ==>
      MeansOf(data, Aggregate(data, intervalMinutes)[k], IntervalMs(intervalMinutes)) &&
      DeviceOf(data, Aggregate(data, intervalMinutes)[k], IntervalMs(intervalMinutes))
  {
    forall k | 0 <= k < |Aggregate(data, intervalMinutes)|
      ensures MeansOf(data, Aggregate(data, intervalMinutes)[k], IntervalMs(intervalMinutes))
      ensures DeviceOf(data, Aggregate(data, intervalMinutes)[k], IntervalMs(intervalMinutes))
    {
      AggregateMeansAt(data, intervalMinutes, k);
      AggregateDeviceAt(data, intervalMinutes, k);
    }
  }

  predicate StrictlyIncreasing(x: seq<int>) {
    forall j, k :: 0 <= j < k < |x| ==> x[j] < x[k]
  }

  lemma HeadIn(x: seq<int>)
    requires x != []
    ensures x[0] in x
  {
  }

  /** Two strictly increasing sequences with the same elements are the same sequence. */
  lemma {:induction false} StrictlyIncreasingUnique(x: seq<int>, y: seq<int>)
    requires StrictlyIncreasing(x) && StrictlyIncreasing(y)
    requires forall v :: v in x <==> v in y
    ensures x == y
  {
    if x == [] || y == [] {
      if x != [] { HeadIn(x); assert false; }
      if y != [] { HeadIn(y); assert false; }
    } else {
      assert x[0] in y && y[0] in x;
      assert x[0] == y[0];
      forall v ensures v in x[1..] <==> v in y[1..] {
        assert v in x[1..] <==> v in x && v > x[0];
        assert v in y[1..] <==> v in y && v > y[0];
      }
      StrictlyIncreasingUnique(x[1..], y[1..]);
      assert x == [x[0]] + x[1..] && y == [y[0]] + y[1..];
    }
  }

  function Timestamps(s: seq<Measurement>): (r: seq<int>)
    ensures |r| == |s| && forall k :: 0 <= k < |s| ==> r[k] == s[k].timestamp
  {
    if s == [] then [] else [s[0].timestamp] + Timestamps(s[1..])
  }

  /** The timestamps of the points are exactly the midpoints of the buckets the
      readings fall in, in increasing order. */
  lemma AggregateTimestamps(data: seq<Measurement>, intervalMinutes: int)
    requires intervalMinutes > 0
    ensures StrictlyIncreasing(Timestamps(Aggregate(data, intervalMinutes)))
    ensures forall t :: t in Timestamps(Aggregate(data, intervalMinutes)) <==>
      IsMidpointOfSome(data, t, IntervalMs(intervalMinutes))
  {
    var intervalMs, out := IntervalMs(intervalMinutes), Aggregate(data, intervalMinutes);
    var ts := Timestamps(out);
    AggregateIncreasing(data, intervalMinutes);
    AggregateMidpoints(data, intervalMinutes);
    forall t ensures t in ts <==> IsMidpointOfSome(data, t, intervalMs) {
      if t in ts {
        var k :| 0 <= k < |ts| && ts[k] == t;
        assert IsMidpointOfSome(data, out[k].timestamp, intervalMs);
      }
      if IsMidpointOfSome(data, t, intervalMs) {
        var m :| m in data && t == BucketStart(m.timestamp, intervalMs) + intervalMs / 2;
        AggregateCovers(data, intervalMinutes, m);
        var k :| 0 <= k < |out| && out[k].timestamp == t;
        assert ts[k] == t;
      }
    }
  }

  lemma InBucketSameMembers(a: seq<Measurement>, c: seq<Measurement>, b: int, intervalMs: int)
    requires intervalMs > 0 && multiset(a) == multiset(c)
    requires InBucket(a, b, intervalMs) != []
    ensures InBucket(c, b, intervalMs) != []
    ensures Mean(InBucket(a, b, intervalMs), Temperature) == Mean(InBucket(c, b, intervalMs), Temperature)
    ensures Mean(InBucket(a, b, intervalMs), Humidity) == Mean(InBucket(c, b, intervalMs), Humidity)
  {
    InBucketPermutation(a, c, b, intervalMs);
    MeanPermutation(InBucket(a, b, intervalMs), InBucket(c, b, intervalMs), Temperature);
    MeanPermutation(InBucket(a, b, intervalMs), InBucket(c, b, intervalMs), Humidity);
  }

  lemma SameMidpoints(a: seq<Measurement>, c: seq<Measurement>, intervalMs: int, t: int)
    requires intervalMs > 0 && multiset(a) == multiset(c)
    ensures IsMidpointOfSome(a, t, intervalMs) <==> IsMidpointOfSome(c, t, intervalMs)
  {
    forall m | m in a ensures m in c { assert m in multiset(a); }
    forall m | m in c ensures m in a { assert m in multiset(c); }
  }

  lemma SameTimestamps(a: seq<Measurement>, c: seq<Measurement>, intervalMinutes: int)
    requires intervalMinutes > 0 && multiset(a) == multiset(c)
    ensures Timestamps(Aggregate(a, intervalMinutes)) == Timestamps(Aggregate(c, intervalMinutes))
  {
    AggregateTimestamps(a, intervalMinutes);
    AggregateTimestamps(c, intervalMinutes);
    forall t ensures IsMidpointOfSome(a, t, IntervalMs(intervalMinutes)) <==> IsMidpointOfSome(c, t, IntervalMs(intervalMinutes)) {
      SameMidpoints(a, c, IntervalMs(intervalMinutes), t);
    }
    StrictlyIncreasingUnique(Timestamps(Aggregate(a, intervalMinutes)), Timestamps(Aggregate(c, intervalMinutes)));
  }

  lemma MeansAgree(a: seq<Measurement>, c: seq<Measurement>, pa: Measurement, pc: Measurement, intervalMs: int)
    requires intervalMs > 0 && multiset(a) == multiset(c) && pa.timestamp == pc.timestamp
    requires MeansOf(a, pa, intervalMs) && MeansOf(c, pc, intervalMs)
    ensures pa.temperature == pc.temperature && pa.humidity == pc.humidity
  {
    InBucketSameMembers(a, c, pa.timestamp - intervalMs / 2, intervalMs);
  }

  lemma SameValuesAt(a: seq<Measurement>, c: seq<Measurement>, intervalMinutes: int, k: int)
    requires intervalMinutes > 0 && multiset(a) == multiset(c)
    requires 0 <= k < |Aggregate(a, intervalMinutes)| && 0 <= k < |Aggregate(c, intervalMinutes)|
    requires Aggregate(a, intervalMinutes)[k].timestamp == Aggregate(c, intervalMinutes)[k].timestamp
    ensures Aggregate(a, intervalMinutes)[k].temperature == Aggregate(c, intervalMinutes)[k].temperature
    ensures Aggregate(a, intervalMinutes)[k].humidity == Aggregate(c, intervalMinutes)[k].humidity
  {
    AggregateMeansAt(a, intervalMinutes, k);
    AggregateMeansAt(c, intervalMinutes, k);
    MeansAgree(a, c, Aggregate(a, intervalMinutes)[k], Aggregate(c, intervalMinutes)[k], IntervalMs(intervalMinutes));
  }

  /** The chart does not depend on the order the readings arrive in: the same
      readings in any order give the same points (up to which device label a
      bucket's first reading carries). */
  lemma AggregateOrderIndependent(a: seq<Measurement>, c: seq<Measurement>, intervalMinutes: int)
    requires intervalMinutes > 0 && multiset(a) == multiset(c)
    ensures |Aggregate(a, intervalMinutes)| == |Aggregate(c, intervalMinutes)|
    ensures forall k :: 0 <= k < |Aggregate(a, intervalMinutes)| ==>
      Aggregate(a, intervalMinutes)[k].timestamp == Aggregate(c, intervalMinutes)[k].timestamp &&
      Aggregate(a, intervalMinutes)[k].temperature == Aggregate(c, intervalMinutes)[k].temperature &&
      Aggregate(a, intervalMinutes)[k].humidity == Aggregate(c, intervalMinutes)[k].humidity
  {
    var outA, outC := Aggregate(a, intervalMinutes), Aggregate(c, intervalMinutes);
    SameTimestamps(a, c, intervalMinutes);
    forall k | 0 <= k < |outA|
      ensures outA[k].timestamp == outC[k].timestamp
      ensures outA[k].temperature == outC[k].temperature && outA[k].humidity == outC[k].humidity
    {
      assert Timestamps(outA)[k] == Timestamps(outC)[k];
      SameValuesAt(a, c, intervalMinutes, k);
    }
  }

  /** Readings whose bucket starts strictly increase each form a bucket of their own. */
  lemma {:induction false} GroupsSingletons(s: seq<Measurement>, intervalMs: int)
    requires intervalMs > 0
    requires forall j, k :: 0 <= j < k < |s| ==>
      BucketStart(s[j].timestamp, intervalMs) < BucketStart(s[k].timestamp, intervalMs)
    ensures |Groups(s, intervalMs)| == |s|
    ensures forall k :: 0 <= k < |s| ==>
      Groups(s, intervalMs)[k] == Bucket(BucketStart(s[k].timestamp, intervalMs), [s[k]])
  {
    if s != [] {
      var p := s[..|s| - 1];
      GroupsSingletons(p, intervalMs);
      var g := Groups(p, intervalMs);
      if g != [] {
        assert g[|g| - 1].start == BucketStart(s[|s| - 2].timestamp, intervalMs);
      }
    }
  }

  /** A point that already sits at its bucket's midpoint with rounded values
      is its own one-reading bucket's point. */
  lemma PointOfSingleton(x: Measurement, intervalMs: int)
    requires intervalMs > 0
    requires x.timestamp == BucketStart(x.timestamp, intervalMs) + intervalMs / 2
    requires Round2(x.temperature) == x.temperature && Round2(x.humidity) == x.humidity
    ensures Point(Bucket(BucketStart(x.timestamp, intervalMs), [x]), intervalMs) == x
  {
    assert Sum([x], Temperature) == x.temperature;
    assert Sum([x], Humidity) == x.humidity;
  }

  /** Point `k` of an aggregated series lies in bucket `k`. */
  lemma AggregatedPointBucket(data: seq<Measurement>, intervalMinutes: int, k: int)
    requires intervalMinutes > 0 && 0 <= k < |Aggregate(data, intervalMinutes)|
    ensures data != [] && |Aggregate(data, intervalMinutes)| == |Groups(Sort(data), IntervalMs(intervalMinutes))|
    ensures BucketStart(Aggregate(data, intervalMinutes)[k].timestamp, IntervalMs(intervalMinutes)) ==
      Groups(Sort(data), IntervalMs(intervalMinutes))[k].start
    ensures Aggregate(data, intervalMinutes)[k].timestamp ==
      BucketStart(Aggregate(data, intervalMinutes)[k].timestamp, IntervalMs(intervalMinutes)) + IntervalMs(intervalMinutes) / 2
  {
    var intervalMs := IntervalMs(intervalMinutes);
    assert data != [];
    AggregateLength(data, intervalMinutes);
    AggregatePoint(data, intervalMinutes, k);
    GroupFirst(Sort(data), intervalMs, k);
    PointInBucket(Groups(Sort(data), intervalMs)[k], intervalMs);
  }

  /** A bucket's point lies at the middle of that bucket. */
  lemma PointInBucket(b: Bucket, intervalMs: int)
    requires intervalMs > 0 && b.members != [] && BucketStart(b.members[0].timestamp, intervalMs) == b.start
    ensures BucketStart(Point(b, intervalMs).timestamp, intervalMs) == b.start
    ensures Point(b, intervalMs).timestamp == b.start + intervalMs / 2
  {
    BucketStartBounds(b.members[0].timestamp, intervalMs);
    BucketStartWithin(b.start, intervalMs / 2, intervalMs);
  }

  /** The values of an aggregated point are already rounded to two decimals. */
  lemma AggregatedPointRounded(data: seq<Measurement>, intervalMinutes: int, k: int)
    requires intervalMinutes > 0 && 0 <= k < |Aggregate(data, intervalMinutes)|
    ensures Round2(Aggregate(data, intervalMinutes)[k].temperature) == Aggregate(data, intervalMinutes)[k].temperature
    ensures Round2(Aggregate(data, intervalMinutes)[k].humidity) == Aggregate(data, intervalMinutes)[k].humidity
  {
    var g := Groups(Sort(data), IntervalMs(intervalMinutes));
    assert data != [];
    AggregateLength(data, intervalMinutes);
    AggregatePoint(data, intervalMinutes, k);
    Round2Idempotent(Mean(g[k].members, Temperature));
    Round2Idempotent(Mean(g[k].members, Humidity));
  }

  lemma AggregatedBucketsIncrease(data: seq<Measurement>, intervalMinutes: int)
    requires intervalMinutes > 0
    ensures forall j, k :: 0 <= j < k < |Aggregate(data, intervalMinutes)| ==>
      BucketStart(Aggregate(data, intervalMinutes)[j].timestamp, IntervalMs(intervalMinutes)) <
      BucketStart(Aggregate(data, intervalMinutes)[k].timestamp, IntervalMs(intervalMinutes))
  {
    var out := Aggregate(data, intervalMinutes);
    GroupsIncreasing(Sort(data), IntervalMs(intervalMinutes));
    forall j, k | 0 <= j < k < |out|
      ensures BucketStart(out[j].timestamp, IntervalMs(intervalMinutes)) < BucketStart(out[k].timestamp, IntervalMs(intervalMinutes))
    {
      AggregatedPointBucket(data, intervalMinutes, j);
      AggregatedPointBucket(data, intervalMinutes, k);
    }
  }

  /** Aggregating an aggregated series again changes nothing. */
  lemma AggregateIdempotent(data: seq<Measurement>, intervalMinutes: int)
    requires intervalMinutes > 0
    ensures Aggregate(Aggregate(data, intervalMinutes), intervalMinutes) == Aggregate(data, intervalMinutes)
  {
    var intervalMs, out := IntervalMs(intervalMinutes), Aggregate(data, intervalMinutes);
    if out != [] {
      AggregateIncreasing(data, intervalMinutes);
      assert SortedByTimestamp(out);
      SortSortedIdentity(out);
      AggregatedBucketsIncrease(data, intervalMinutes);
      GroupsSingletons(out, intervalMs);
      var h := Groups(out, intervalMs);
      GroupsNonEmpty(out, intervalMs);
      PointsAt(h, intervalMs);
      forall k | 0 <= k < |out| ensures Points(h, intervalMs)[k] == out[k] {
        AggregatedPointBucket(data, intervalMinutes, k);
        AggregatedPointRounded(data, intervalMinutes, k);
        PointOfSingleton(out[k], intervalMs);
      }
    }
  }

  /** Each input reading lands in exactly one point: the one at its bucket's midpoint. */
  lemma AggregateExactlyOne(data: seq<Measurement>, intervalMinutes: int, m: Measurement)
    requires intervalMinutes > 0 && m in data
    ensures exists k :: (0 <= k < |Aggregate(data, intervalMinutes)| &&
      Aggregate(data, intervalMinutes)[k].timestamp ==
        BucketStart(m.timestamp, IntervalMs(intervalMinutes)) + IntervalMs(intervalMinutes) / 2 &&
      forall j :: (0 <= j < |Aggregate(data, intervalMinutes)| &&
        Aggregate(data, intervalMinutes)[j].timestamp == Aggregate(data, intervalMinutes)[k].timestamp) ==> j == k)
  {
    AggregateCovers(data, intervalMinutes, m);
    AggregateIncreasing(data, intervalMinutes);
  }

  /** The number of readings per bucket, summed over the buckets. */
  function MemberCount(g: seq<Bucket>): nat
  {
    if g == [] then 0 else MemberCount(g[..|g| - 1]) + |g[|g| - 1].members|
  }

  lemma {:induction false} FlattenLength(g: seq<Bucket>)
    ensures |Flatten(g)| == MemberCount(g)
  {
    if g != [] {
      FlattenLength(g[..|g| - 1]);
    }
  }

  /** The number of readings of `data` behind each point, summed over the points. */
  function BucketSizes(data: seq<Measurement>, points: seq<Measurement>, intervalMs: int): nat
    requires intervalMs > 0
  {
    if points == [] then 0
    else BucketSizes(data, points[..|points| - 1], intervalMs)
         + |InBucket(data, points[|points| - 1].timestamp - intervalMs / 2, intervalMs)|
  }

  /** Point `k` stands for as many readings of `data` as bucket `k` holds. */
  predicate SizesAgree(data: seq<Measurement>, points: seq<Measurement>, g: seq<Bucket>, intervalMs: int)
    requires intervalMs > 0
  {
    |points| == |g| &&
    forall k :: 0 <= k < |g| ==>
      |InBucket(data, points[k].timestamp - intervalMs / 2, intervalMs)| == |g[k].members|
  }

  lemma {:induction false} BucketSizesMatch(data: seq<Measurement>, points: seq<Measurement>, g: seq<Bucket>, intervalMs: int)
    requires intervalMs > 0 && SizesAgree(data, points, g, intervalMs)
    ensures BucketSizes(data, points, intervalMs) == MemberCount(g)
  {
    if g != [] {
      var n := |g| - 1;
      assert forall k :: 0 <= k < n ==> points[..n][k] == points[k] && g[..n][k] == g[k];
      BucketSizesMatch(data, points[..n], g[..n], intervalMs);
    }
  }

  lemma BucketSizeAt(data: seq<Measurement>, intervalMinutes: int, k: int)
    requires intervalMinutes > 0 && data != [] && 0 <= k < |Groups(Sort(data), IntervalMs(intervalMinutes))|
    ensures |Aggregate(data, intervalMinutes)| == |Groups(Sort(data), IntervalMs(intervalMinutes))|
    ensures |InBucket(data, Aggregate(data, intervalMinutes)[k].timestamp - IntervalMs(intervalMinutes) / 2, IntervalMs(intervalMinutes))|
      == |Groups(Sort(data), IntervalMs(intervalMinutes))[k].members|
  {
    var intervalMs := IntervalMs(intervalMinutes);
    var g := Groups(Sort(data), intervalMs);
    AggregatePoint(data, intervalMinutes, k);
    GroupIsBucket(data, intervalMs, k);
    AggregateLength(data, intervalMinutes);
    InBucketPermutation(Sort(data), data, g[k].start, intervalMs);
    assert |multiset(InBucket(data, g[k].start, intervalMs))| == |multiset(g[k].members)|;
  }

  lemma GroupsMemberCount(data: seq<Measurement>, intervalMs: int)
    requires intervalMs > 0
    ensures MemberCount(Groups(Sort(data), intervalMs)) == |data|
  {
    FlattenLength(Groups(Sort(data), intervalMs));
    GroupsFlatten(Sort(data), intervalMs);
  }

  lemma BucketSizesAll(data: seq<Measurement>, intervalMinutes: int)
    requires intervalMinutes > 0 && data != []
    ensures SizesAgree(data, Aggregate(data, intervalMinutes), Groups(Sort(data), IntervalMs(intervalMinutes)), IntervalMs(intervalMinutes))
  {
    AggregateLength(data, intervalMinutes);
    forall k | 0 <= k < |Groups(Sort(data), IntervalMs(intervalMinutes))|
      ensures |InBucket(data, Aggregate(data, intervalMinutes)[k].timestamp - IntervalMs(intervalMinutes) / 2, IntervalMs(intervalMinutes))|
        == |Groups(Sort(data), IntervalMs(intervalMinutes))[k].members|
    {
      BucketSizeAt(data, intervalMinutes, k);
    }
  }

  lemma BucketSizesNonEmpty(data: seq<Measurement>, intervalMinutes: int)
    requires intervalMinutes > 0 && data != []
    ensures BucketSizes(data, Aggregate(data, intervalMinutes), IntervalMs(intervalMinutes)) == |data|
  {
    BucketSizesAll(data, intervalMinutes);
    BucketSizesMatch(data, Aggregate(data, intervalMinutes), Groups(Sort(data), IntervalMs(intervalMinutes)), IntervalMs(intervalMinutes));
    GroupsMemberCount(data, IntervalMs(intervalMinutes));
  }

  /** The buckets behind the points hold every reading once: their sizes add
      up to the number of readings. */
  lemma AggregateBucketSizes(data: seq<Measurement>, intervalMinutes: int)
    requires intervalMinutes > 0
    ensures BucketSizes(data, Aggregate(data, intervalMinutes), IntervalMs(intervalMinutes)) == |data|
  {
    if data == [] {
      AggregateEmpty(intervalMinutes);
    } else {
      BucketSizesNonEmpty(data, intervalMinutes);
    }
  }
}
