/**
 The exponential histogram: a window of bucket counts that grows at either end as durations
 are recorded.
 */
module Histogram {
  import opened Wrappers
  import opened Powers
  import opened Backoff

  const MAX_INT64 := 0x7fff_ffff_ffff_ffff

  function TwoTo(n: nat): nat {
    if n == 0 then 1 else 2 * TwoTo(n - 1)
  }

  /** floor(log2(seconds) * 2^scale), as the floor of the logarithm of seconds^(2^scale). */
  function MapToIndex(d: Duration, scale: nat): (i: int)
    requires d > 0
    ensures var y := Pow(Seconds(d), TwoTo(scale));
            PowInt(2.0, i) <= y < PowInt(2.0, i + 1)
  {
    PowPositive(Seconds(d), TwoTo(scale));
    FloorLog(2.0, Pow(Seconds(d), TwoTo(scale)))
  }

  /**
   Durations are kept in nanoseconds.  least and most are None as long as the source has its
   infinities there.
   */
  datatype Hist = Hist(
    scale: nat,
    count: nat,
    sum: int,
    least: Option<Duration>,
    most: Option<Duration>,
    zeroCount: nat,
    offset: int,
    counts: seq<nat>
  )

  function New(scale: nat): Hist {
    Hist(scale, 0, 0, None, None, 0, 0, [])
  }

  function Zeros(n: nat): (z: seq<nat>)
    ensures |z| == n && forall i :: 0 <= i < n ==> z[i] == 0
  {
    seq(n, i => 0)
  }

  /** One more observation in bucket idx, widening the window to reach it. */
  function IncBucket(h: Hist, idx: int): Hist {
    var end := h.offset + |h.counts| - 1;
    if h.counts == [] then h.(offset := idx, counts := [1])
    else if idx < h.offset then h.(offset := idx, counts := [1] + Zeros(h.offset - idx - 1) + h.counts)
    else if idx > end then h.(counts := h.counts + Zeros(idx - end - 1) + [1])
    else h.(counts := h.counts[idx - h.offset := h.counts[idx - h.offset] + 1])
  }

  /** The count, sum and extremes with one more duration. */
  function Tally(h: Hist, d: Duration): Hist {
    h.(count := h.count + 1,
       sum := h.sum + d,
       least := if h.least.Some? && h.least.value <= d then h.least else Some(d),
       most := if h.most.Some? && h.most.value >= d then h.most else Some(d))
  }

  function Record(h: Hist, d: Duration): Hist {
    if d < 0 then h
    else if d == 0 then Tally(h, d).(zeroCount := h.zeroCount + 1)
    else IncBucket(Tally(h, d), MapToIndex(d, h.scale))
  }

  function RecordAll(scale: nat, ds: seq<Duration>): Hist {
    if ds == [] then New(scale) else Record(RecordAll(scale, ds[..|ds| - 1]), ds[|ds| - 1])
  }

  /** The histogram of one measurement, changed in place. */
  class Recorder {
    var scale: nat
    var count: nat
    var sum: int
    var least: Option<Duration>
    var most: Option<Duration>
    var zeroCount: nat
    var offset: int
    var counts: seq<nat>

    ghost function State(): Hist
      reads this
    {
      Hist(scale, count, sum, least, most, zeroCount, offset, counts)
    }

    constructor (scale: nat)
      ensures State() == New(scale)
    {
      this.scale := scale;
      count, sum, zeroCount, offset, counts := 0, 0, 0, 0, [];
      least, most := None, None;
    }

    method RecordDuration(d: Duration)
      modifies this
      ensures State() == Record(old(State()), d)
    {
      if d < 0 {
        return;
      }
      count := count + 1;
      sum := sum + d;
      if least.None? || d < least.value {
        least := Some(d);
      }
      if most.None? || d > most.value {
        most := Some(d);
      }
      assert State() == Tally(old(State()), d);
      if d == 0 {
        zeroCount := zeroCount + 1;
        return;
      }
      Increment(MapToIndex(d, scale));
    }

    /** incBucket. */
    method Increment(idx: int)
      modifies `offset, `counts
      ensures State() == IncBucket(old(State()), idx)
    {
      if |counts| == 0 {
        offset := idx;
        counts := [1];
        return;
      }
      var start, end := offset, offset + |counts| - 1;
      if idx < start {
        var grow := start - idx;
        var newCounts := Zeros(grow) + counts;
        newCounts := newCounts[0 := 1];
        assert newCounts == [1] + Zeros(grow - 1) + counts;
        counts := newCounts;
        offset := idx;
      } else if idx > end {
        var grow := idx - end;
        var was := counts;
        counts := counts + Zeros(grow);
        counts := counts[idx - offset := counts[idx - offset] + 1];
        assert counts == was + Zeros(grow - 1) + [1];
      } else {
        counts := counts[idx - offset := counts[idx - offset] + 1];
      }
    }
  }

  // ----- What the window holds -----

  /** The count of bucket i; nothing outside the window. */
  function Bucket(h: Hist, i: int): nat {
    if h.offset <= i < h.offset + |h.counts| then h.counts[i - h.offset] else 0
  }

  function Sum(counts: seq<nat>): nat {
    if counts == [] then 0 else Sum(counts[..|counts| - 1]) + counts[|counts| - 1]
  }

  /** How many of the durations fall into bucket i. */
  function Observed(ds: seq<Duration>, scale: nat, i: int): nat {
    if ds == [] then 0
    else
      var d := ds[|ds| - 1];
      Observed(ds[..|ds| - 1], scale, i) + if d > 0 && MapToIndex(d, scale) == i then 1 else 0
  }

  function CountZero(ds: seq<Duration>): nat {
    if ds == [] then 0 else CountZero(ds[..|ds| - 1]) + if ds[|ds| - 1] == 0 then 1 else 0
  }

  function CountNonNegative(ds: seq<Duration>): nat {
    if ds == [] then 0 else CountNonNegative(ds[..|ds| - 1]) + if ds[|ds| - 1] >= 0 then 1 else 0
  }

  /** The window is tight: its first and last bucket are not empty. */
  predicate Tight(h: Hist) {
    h.counts != [] ==> h.counts[0] > 0 && h.counts[|h.counts| - 1] > 0
  }

  lemma {:induction false} SumAppend(xs: seq<nat>, ys: seq<nat>)
    ensures Sum(xs + ys) == Sum(xs) + Sum(ys)
  {
    if ys == [] {
      assert xs + ys == xs;
    } else {
      SumAppend(xs, ys[..|ys| - 1]);
      assert (xs + ys)[..|xs + ys| - 1] == xs + ys[..|ys| - 1];
    }
  }

  lemma {:induction false} SumZeros(n: nat)
    ensures Sum(Zeros(n)) == 0
  {
    if n > 0 {
      SumZeros(n - 1);
      assert Zeros(n)[..n - 1] == Zeros(n - 1);
    }
  }

  lemma SumOne()
    ensures Sum([1]) == 1
  {
    assert [1][..0] == [];
  }

  lemma SumUpdate(counts: seq<nat>, k: nat, c: nat)
    requires k < |counts|
    ensures Sum(counts[k := c]) + counts[k] == Sum(counts) + c
  {
    var updated := counts[k := c];
    assert counts == counts[..k] + [counts[k]] + counts[k + 1..];
    assert updated == counts[..k] + [c] + counts[k + 1..];
    SumAppend(counts[..k] + [counts[k]], counts[k + 1..]);
    SumAppend(counts[..k], [counts[k]]);
    SumAppend(counts[..k] + [c], counts[k + 1..]);
    SumAppend(counts[..k], [c]);
    assert [c][..0] == [] && [counts[k]][..0] == [];
  }

  lemma IncBucketCounts(h: Hist, idx: int, i: int)
    requires Tight(h)
    ensures Tight(IncBucket(h, idx))
    ensures Bucket(IncBucket(h, idx), i) == Bucket(h, i) + if i == idx then 1 else 0
  {
  }

  lemma IncBucketSum(h: Hist, idx: int)
    ensures Sum(IncBucket(h, idx).counts) == Sum(h.counts) + 1
  {
    SumOne();
    var end := h.offset + |h.counts| - 1;
    if h.counts == [] {
    } else if idx < h.offset {
      SumZeros(h.offset - idx - 1);
      SumAppend([1], Zeros(h.offset - idx - 1));
      SumAppend([1] + Zeros(h.offset - idx - 1), h.counts);
    } else if idx > end {
      SumZeros(idx - end - 1);
      SumAppend(h.counts, Zeros(idx - end - 1));
      SumAppend(h.counts + Zeros(idx - end - 1), [1]);
    } else {
      SumUpdate(h.counts, idx - h.offset, h.counts[idx - h.offset] + 1);
    }
  }

  /**
   After any recordings, bucket i holds exactly the number of durations mapped to it (none
   outside the window), the window is tight, and the counts add up.
   */
  lemma {:induction false} WindowCountsObservations(scale: nat, ds: seq<Duration>, i: int)
    ensures var h := RecordAll(scale, ds);
            && h.scale == scale && Tight(h)
            && Bucket(h, i) == Observed(ds, scale, i)
            && h.zeroCount == CountZero(ds)
            && h.count == CountNonNegative(ds) == h.zeroCount + Sum(h.counts)
  {
    if ds != [] {
      var prior, d := ds[..|ds| - 1], ds[|ds| - 1];
      WindowCountsObservations(scale, prior, i);
      RecordCounts(RecordAll(scale, prior), d, i);
    }
  }

  lemma RecordCounts(h: Hist, d: Duration, i: int)
    requires Tight(h)
    ensures var r := Record(h, d);
            && r.scale == h.scale && Tight(r)
            && Bucket(r, i) == Bucket(h, i) + (if d > 0 && MapToIndex(d, h.scale) == i then 1 else 0)
            && r.zeroCount == h.zeroCount + (if d == 0 then 1 else 0)
            && r.count == h.count + (if d >= 0 then 1 else 0)
            && r.count - r.zeroCount - Sum(r.counts) == h.count - h.zeroCount - Sum(h.counts)
  {
    if d > 0 {
      BucketRecorded(Tally(h, d), MapToIndex(d, h.scale), i);
      assert Record(h, d) == IncBucket(Tally(h, d), MapToIndex(d, h.scale));
    }
  }

  lemma BucketRecorded(h: Hist, idx: int, i: int)
    requires Tight(h)
    ensures var r := IncBucket(h, idx);
            && r.scale == h.scale && r.zeroCount == h.zeroCount && r.count == h.count && Tight(r)
            && Bucket(r, i) == Bucket(h, i) + (if i == idx then 1 else 0)
            && Sum(r.counts) == Sum(h.counts) + 1
  {
    IncBucketCounts(h, idx, i);
    IncBucketSum(h, idx);
  }

  // ----- Sum and extremes -----

  function SumNonNegative(ds: seq<Duration>): int {
    if ds == [] then 0 else SumNonNegative(ds[..|ds| - 1]) + if ds[|ds| - 1] >= 0 then ds[|ds| - 1] else 0
  }

  ghost predicate IsLeast(ds: seq<Duration>, d: Duration) {
    d in ds && d >= 0 && forall e :: e in ds && e >= 0 ==> d <= e
  }

  ghost predicate IsMost(ds: seq<Duration>, d: Duration) {
    d in ds && d >= 0 && forall e :: e in ds && e >= 0 ==> e <= d
  }

  /** The extremes are those of ds, missing only when nothing was counted, and the mean lies between. */
  ghost predicate Tallied(h: Hist, ds: seq<Duration>) {
    && (h.least.None? <==> h.count == 0) && (h.most.None? <==> h.count == 0)
    && (h.count == 0 ==> h.sum == 0 && forall e :: e in ds ==> e < 0)
    && (h.count > 0 ==> IsLeast(ds, h.least.value) && IsMost(ds, h.most.value))
    && (h.count > 0 ==> h.count * h.least.value <= h.sum <= h.count * h.most.value)
  }

  /** After any recordings the sum and the extremes are those of the durations recorded. */
  lemma {:induction false} SumAndExtremes(scale: nat, ds: seq<Duration>)
    ensures RecordAll(scale, ds).sum == SumNonNegative(ds)
    ensures Tallied(RecordAll(scale, ds), ds)
  {
    if ds != [] {
      var prior, d := ds[..|ds| - 1], ds[|ds| - 1];
      SumAndExtremes(scale, prior);
      assert ds == prior + [d];
      RecordTallies(RecordAll(scale, prior), prior, d);
    }
  }

  lemma RecordTallies(h: Hist, ds: seq<Duration>, d: Duration)
    requires Tallied(h, ds)
    ensures Tallied(Record(h, d), ds + [d])
  {
    if d >= 0 {
      TallyStep(h, ds, d);
      RecordKeepsTally(h, d);
    }
  }

  lemma RecordKeepsTally(h: Hist, d: Duration)
    requires d >= 0
    ensures var r, t := Record(h, d), Tally(h, d);
            r.count == t.count && r.sum == t.sum && r.least == t.least && r.most == t.most
  {
  }

  lemma TallyStep(h: Hist, ds: seq<Duration>, d: Duration)
    requires Tallied(h, ds) && d >= 0
    ensures Tallied(Tally(h, d), ds + [d])
  {
    var t := Tally(h, d);
    assert IsLeast(ds + [d], t.least.value) && IsMost(ds + [d], t.most.value);
    if h.count > 0 { MeanStep(h.count, h.sum, h.least.value, h.most.value, d); }
  }

  lemma MeanStep(count: nat, sum: int, least: int, most: int, d: int)
    requires count * least <= sum <= count * most
    ensures (count + 1) * (if least <= d then least else d) <= sum + d
    ensures sum + d <= (count + 1) * (if most >= d then most else d)
  {
    if d < least { assert count * (least - d) >= 0; }
    if d > most { assert count * (d - most) >= 0; }
  }

  // ----- Between scales -----

  /** One scale up each bucket is cut in two: halving an index gives the index of the scale below. */
  lemma IndexHalves(d: Duration, scale: nat)
    requires d > 0
    ensures MapToIndex(d, scale + 1) / 2 == MapToIndex(d, scale)
  {
    var y, square := ScaledSeconds(d, scale);
    LogHalves(y, square);
  }

  lemma ScaledSeconds(d: Duration, scale: nat) returns (y: real, square: real)
    requires d > 0
    ensures y > 0.0 && square > 0.0 && square == y * y
    ensures MapToIndex(d, scale) == FloorLog(2.0, y) && MapToIndex(d, scale + 1) == FloorLog(2.0, square)
  {
    y, square := Pow(Seconds(d), TwoTo(scale)), Pow(Seconds(d), TwoTo(scale + 1));
    PowPositive(Seconds(d), TwoTo(scale));
    PowPositive(Seconds(d), TwoTo(scale + 1));
    PowAdd(Seconds(d), TwoTo(scale), TwoTo(scale));
  }

  lemma LogHalves(y: real, square: real)
    requires y > 0.0 && square > 0.0 && square == y * y
    ensures FloorLog(2.0, square) / 2 == FloorLog(2.0, y)
  {
    RootHalvesTheLog(y, square, FloorLog(2.0, square));
  }

  lemma RootHalvesTheLog(y: real, square: real, j: int)
    requires y > 0.0 && square == y * y && PowInt(2.0, j) <= square < PowInt(2.0, j + 1)
    ensures FloorLog(2.0, y) == j / 2
  {
    EvenBounds(square, j);
    HalfTheLog(y, square, j / 2);
    FloorLogUnique(2.0, y, j / 2);
  }

  lemma EvenBounds(square: real, j: int)
    requires PowInt(2.0, j) <= square < PowInt(2.0, j + 1)
    ensures PowInt(2.0, 2 * (j / 2)) <= square < PowInt(2.0, 2 * (j / 2 + 1))
  {
    PowIntMonotone(2.0, 2 * (j / 2), j);
    PowIntMonotone(2.0, j + 1, 2 * (j / 2 + 1));
  }

  lemma HalfTheLog(y: real, square: real, h: int)
    requires y > 0.0 && square == y * y && PowInt(2.0, 2 * h) <= square < PowInt(2.0, 2 * (h + 1))
    ensures PowInt(2.0, h) <= y < PowInt(2.0, h + 1)
  {
    PowIntDouble(2.0, h);
    PowIntDouble(2.0, h + 1);
    RootBetween(PowInt(2.0, h), PowInt(2.0, 2 * h), y, square, PowInt(2.0, h + 1), PowInt(2.0, 2 * (h + 1)));
  }

  lemma RootBetween(x: real, xx: real, y: real, yy: real, z: real, zz: real)
    requires x > 0.0 && y > 0.0 && z > 0.0 && xx == x * x && yy == y * y && zz == z * z && xx <= yy < zz
    ensures x <= y < z
  {
    if y < x { SquareLess(y, x); }
    if z <= y { SquareMonotone(z, y); }
  }

  lemma SquareLess(x: real, y: real)
    requires 0.0 < x < y
    ensures x * x < y * y
  {
    MulLess(x, x, y);
    MulLess(y, x, y);
  }

  /** At scale 0 an index is the floor of the logarithm of the seconds. */
  lemma IndexAtZero(d: Duration)
    requires d > 0
    ensures PowInt(2.0, MapToIndex(d, 0)) <= Seconds(d) < PowInt(2.0, MapToIndex(d, 0) + 1)
  {
    assert Pow(Seconds(d), 1) == Seconds(d) * Pow(Seconds(d), 0);
  }

  // ----- The window at scale 2 -----

  lemma PowersOfTwo()
    ensures Pow(2.0, 119) == 664613997892457936451903530140172288.0
    ensures Pow(2.0, 120) == 1329227995784915872903807060280344576.0
    ensures Pow(2.0, 133) == 10889035741470030830827987437816582766592.0
  {
    assert Pow(2.0, 7) == 128.0;
    PowAdd(2.0, 7, 7);
    PowAdd(2.0, 14, 14);
    PowAdd(2.0, 28, 28);
    PowAdd(2.0, 56, 56);
    PowAdd(2.0, 112, 7);
    PowAdd(2.0, 119, 14);
    assert Pow(2.0, 120) == 2.0 * Pow(2.0, 119);
  }

  lemma Power4(x: real)
    ensures Pow(x, TwoTo(2)) == x * x * (x * x)
  {
    assert TwoTo(2) == 4;
    PowAdd(x, 2, 2);
    assert Pow(x, 2) == x * Pow(x, 1) == x * (x * Pow(x, 0));
  }

  lemma Power4Monotone(x: real, y: real)
    requires 0.0 <= x <= y
    ensures x * x * (x * x) <= y * y * (y * y)
  {
    SquareMonotone(x, y);
    SquareMonotone(x * x, y * y);
  }

  lemma SquareMonotone(x: real, y: real)
    requires 0.0 <= x <= y
    ensures 0.0 <= x * x <= y * y
  {
    MulMonotone(x, x, y);
    MulMonotone(y, x, y);
  }

  const LOWEST_INDEX := -120
  const HIGHEST_INDEX := 132

  /** Every positive int64 number of nanoseconds maps into 253 buckets at scale 2. */
  lemma IndexBounded(d: Duration)
    requires 0 < d <= MAX_INT64
    ensures LOWEST_INDEX <= MapToIndex(d, 2) <= HIGHEST_INDEX
  {
    var x, i := Seconds(d), MapToIndex(d, 2);
    Power4(x);
    PowersOfTwo();
    Power4Monotone(0.000000001, x);
    Power4Monotone(x, 9223372036.854775807);
    if i < LOWEST_INDEX { PowIntMonotone(2.0, i + 1, LOWEST_INDEX); }
    if i > HIGHEST_INDEX { PowIntMonotone(2.0, HIGHEST_INDEX + 1, i); }
  }

  ghost predicate WindowWithin(h: Hist, lo: int, hi: int) {
    h.counts != [] ==> lo <= h.offset && h.offset + |h.counts| - 1 <= hi
  }

  /** So the window of a scale-2 histogram never holds more than 253 counts, in any run. */
  lemma {:induction false} WindowBounded(ds: seq<Duration>)
    requires forall k :: 0 <= k < |ds| ==> ds[k] <= MAX_INT64
    ensures WindowWithin(RecordAll(2, ds), LOWEST_INDEX, HIGHEST_INDEX)
    ensures |RecordAll(2, ds).counts| <= 253
  {
    if ds != [] {
      var prior, d := ds[..|ds| - 1], ds[|ds| - 1];
      WindowBounded(prior);
      WindowCountsObservations(2, prior, 0);
      if d > 0 { IndexBounded(d); }
    }
  }

  lemma ExtremeIndices()
    ensures MapToIndex(1, 2) == LOWEST_INDEX && MapToIndex(MAX_INT64, 2) == HIGHEST_INDEX
  {
    PowersOfTwo();
    Power4(Seconds(1));
    Power4(Seconds(MAX_INT64));
    assert Pow(2.0, 132) * 2.0 == Pow(2.0, 133);
    FloorLogUnique(2.0, Pow(Seconds(1), TwoTo(2)), LOWEST_INDEX);
    FloorLogUnique(2.0, Pow(Seconds(MAX_INT64), TwoTo(2)), HIGHEST_INDEX);
  }

  /** A duration beyond the window widens it up to the new index. */
  lemma RecordWidens(h: Hist, d: Duration, idx: int)
    requires d > 0 && idx == MapToIndex(d, h.scale)
    ensures h.counts == [] ==> Record(h, d).offset == idx && |Record(h, d).counts| == 1
    ensures h.counts != [] && h.offset + |h.counts| <= idx ==> |Record(h, d).counts| == idx - h.offset + 1
  {
  }

  /** The bound is reached: the shortest and the longest duration span all 253 buckets. */
  lemma WindowBoundReached()
    ensures |RecordAll(2, [1, MAX_INT64]).counts| == 253
  {
    ExtremeIndices();
    var none, one := RecordAll(2, []), RecordAll(2, [1]);
    assert [1][..0] == [] && [1, MAX_INT64][..1] == [1];
    assert one == Record(none, 1) && RecordAll(2, [1, MAX_INT64]) == Record(one, MAX_INT64);
    RecordWidens(none, 1, LOWEST_INDEX);
    RecordWidens(one, MAX_INT64, HIGHEST_INDEX);
  }
}
