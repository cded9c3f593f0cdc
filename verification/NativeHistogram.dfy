/**
 The export to Prometheus' native form: runs of adjacent non-empty buckets as spans, counts as
 differences between neighbours.  A reader gets back exactly the non-empty buckets.
 */
module NativeHistogram {
  import opened Wrappers
  import H = Histogram

  /** What a snapshot carries into the export. */
  datatype Snapshot = Snapshot(scale: int, count: nat, sum: int, zeroCount: nat, offset: int, counts: seq<nat>)

  datatype Span = Span(offset: int, length: nat)

  datatype Native = Native(
    schema: int,
    count: nat,
    sum: int,
    zeroCount: nat,
    spans: seq<Span>,
    deltas: seq<int>
  )

  /** A bucket by its upper-bound index. */
  datatype NativeBucket = NativeBucket(idx: int, count: nat)

  const TWO63 := 0x8000_0000_0000_0000
  const TWO64 := 0x1_0000_0000_0000_0000

  /** The int64 with the same low 64 bits. */
  function Wrap64(x: int): int {
    var low := x % TWO64;
    if low < TWO63 then low else low - TWO64
  }

  /** The non-empty buckets, by upper-bound index. */
  function NonEmpty(offset: int, counts: seq<nat>): seq<NativeBucket> {
    if counts == [] then []
    else
      var n := |counts| - 1;
      NonEmpty(offset, counts[..n]) + if counts[n] == 0 then [] else [NativeBucket(offset + n + 1, counts[n])]
  }

  ghost predicate Ascending(nz: seq<NativeBucket>) {
    forall i, j :: 0 <= i < j < |nz| ==> nz[i].idx < nz[j].idx
  }

  /** b is the bucket at its place in the counts, and not empty. */
  predicate Shows(offset: int, counts: seq<nat>, b: NativeBucket) {
    offset < b.idx <= offset + |counts| && b.count > 0 && counts[b.idx - offset - 1] == b.count
  }

  lemma {:induction false} NonEmptyIff(offset: int, counts: seq<nat>, b: NativeBucket)
    ensures b in NonEmpty(offset, counts) <==> Shows(offset, counts, b)
  {
    if counts != [] {
      var n := |counts| - 1;
      NonEmptyIff(offset, counts[..n], b);
      var last := NativeBucket(offset + n + 1, counts[n]);
      assert b in NonEmpty(offset, counts) <==> b in NonEmpty(offset, counts[..n]) || (counts[n] != 0 && b == last);
    }
  }

  lemma {:induction false} NonEmptyAscending(offset: int, counts: seq<nat>)
    ensures Ascending(NonEmpty(offset, counts))
  {
    if counts != [] {
      var n := |counts| - 1;
      var prior := NonEmpty(offset, counts[..n]);
      NonEmptyAscending(offset, counts[..n]);
      forall i | 0 <= i < |prior|
        ensures prior[i].idx <= offset + n
      {
        NonEmptyIff(offset, counts[..n], prior[i]);
      }
    }
  }

  // ----- The reader -----

  /** The index after the last bucket the spans cover; 0 before the first span. */
  function EndOf(spans: seq<Span>): int {
    if spans == [] then 0
    else EndOf(spans[..|spans| - 1]) + spans[|spans| - 1].offset + spans[|spans| - 1].length
  }

  /** The bucket indices the spans cover: each span starts its offset after the end of the one before. */
  function Indices(spans: seq<Span>): seq<int> {
    if spans == [] then []
    else
      var prior, last := spans[..|spans| - 1], spans[|spans| - 1];
      Indices(prior) + seq(last.length, k requires 0 <= k < last.length => EndOf(prior) + last.offset + k)
  }

  /** A count and the next delta, added in 64-bit arithmetic. */
  function NextCount(prev: nat, delta: int): nat {
    (prev + delta) % TWO64
  }

  function LastOf(counts: seq<nat>): nat {
    if counts == [] then 0 else counts[|counts| - 1]
  }

  /** The counts, as the running sum of the deltas. */
  function Counts(deltas: seq<int>): seq<nat> {
    if deltas == [] then []
    else
      var prior := Counts(deltas[..|deltas| - 1]);
      prior + [NextCount(LastOf(prior), deltas[|deltas| - 1])]
  }

  function LengthSum(spans: seq<Span>): nat {
    if spans == [] then 0 else LengthSum(spans[..|spans| - 1]) + spans[|spans| - 1].length
  }

  function IdxOf(nz: seq<NativeBucket>): seq<int> {
    seq(|nz|, i requires 0 <= i < |nz| => nz[i].idx)
  }

  function CountOf(nz: seq<NativeBucket>): seq<nat> {
    seq(|nz|, i requires 0 <= i < |nz| => nz[i].count)
  }

  /** Runs are maximal: every span holds a bucket, and every later one leaves a gap. */
  ghost predicate Maximal(spans: seq<Span>) {
    forall i :: 0 <= i < |spans| ==> spans[i].length > 0 && (i > 0 ==> spans[i].offset > 0)
  }

  lemma IndicesSnoc(spans: seq<Span>, last: Span)
    ensures Indices(spans + [last])
            == Indices(spans) + seq(last.length, k requires 0 <= k < last.length => EndOf(spans) + last.offset + k)
    ensures EndOf(spans + [last]) == EndOf(spans) + last.offset + last.length
    ensures LengthSum(spans + [last]) == LengthSum(spans) + last.length
  {
    assert (spans + [last])[..|spans + [last]| - 1] == spans;
  }

  lemma CountsSnoc(deltas: seq<int>, d: int)
    ensures Counts(deltas + [d]) == Counts(deltas) + [NextCount(LastOf(Counts(deltas)), d)]
  {
    assert (deltas + [d])[..|deltas + [d]| - 1] == deltas;
  }

  /** The difference of two uint64 counts, taken in int64, brings the reader from one to the other. */
  lemma DeltaReaches(prev: nat, count: nat)
    requires prev < TWO64 && count < TWO64
    ensures NextCount(prev, Wrap64(Wrap64(count) - Wrap64(prev))) == count
    ensures prev < TWO63 && count < TWO63 ==> Wrap64(Wrap64(count) - Wrap64(prev)) == count - prev
  {
    var difference := Wrap64(count) - Wrap64(prev);
    assert Wrap64(count) == if count < TWO63 then count else count - TWO64;
    assert Wrap64(prev) == if prev < TWO63 then prev else prev - TWO64;
    var low := if count >= prev then count - prev else count - prev + TWO64;
    assert difference % TWO64 == low;
    assert Wrap64(difference) == if low < TWO63 then low else low - TWO64;
  }

  /** The non-empty buckets as the loop over Counts collects them. */
  method CollectNonEmpty(offset: int, counts: seq<nat>) returns (nz: seq<NativeBucket>)
    ensures nz == NonEmpty(offset, counts)
  {
    nz := [];
    for i := 0 to |counts|
      invariant nz == NonEmpty(offset, counts[..i])
    {
      assert counts[..i + 1][..i] == counts[..i];
      if counts[i] == 0 {
        continue;
      }
      nz := nz + [NativeBucket(offset + i + 1, counts[i])];
    }
    assert counts[..|counts|] == counts;
  }

  /**
   ToPromNative.  Reading the spans and deltas back gives the non-empty buckets; there is one
   delta per covered bucket; runs are maximal; with nothing to show there is one empty span.
   */
  method ToPromNative(s: Snapshot) returns (r: Result<Native, string>)
    requires forall i :: 0 <= i < |s.counts| ==> s.counts[i] < TWO64
    ensures r.Failure? <==> s.scale < -4 || s.scale > 8
    ensures r.Success? ==>
              var n, nz := r.value, NonEmpty(s.offset, s.counts);
              && n.schema == s.scale && n.count == s.count && n.sum == s.sum && n.zeroCount == s.zeroCount
              && Indices(n.spans) == IdxOf(nz) && Counts(n.deltas) == CountOf(nz)
              && LengthSum(n.spans) == |n.deltas|
              && if nz == [] then n.spans == [Span(0, 0)] && n.deltas == [] else Maximal(n.spans)
  {
    if s.scale < -4 || s.scale > 8 {
      return Failure("scale is outside the native histogram schema range");
    }
    var out := Native(s.scale, s.count, s.sum, s.zeroCount, [], []);
    assert IdxOf([]) == [] && CountOf([]) == [];
    if s.count == 0 && s.zeroCount == 0 && |s.counts| == 0 {
      EmptySpan();
      return Success(out.(spans := [Span(0, 0)]));
    }
    var nz := CollectNonEmpty(s.offset, s.counts);
    if |nz| == 0 {
      EmptySpan();
      return Success(out.(spans := [Span(0, 0)]));
    }
    NonEmptyAscending(s.offset, s.counts);
    forall k | 0 <= k < |nz|
      ensures nz[k].count < TWO64
    {
      NonEmptyIff(s.offset, s.counts, nz[k]);
    }
    var spans, deltas := EncodeRuns(nz);
    r := Success(out.(spans := spans, deltas := deltas));
  }

  lemma EmptySpan()
    ensures Indices([Span(0, 0)]) == [] && LengthSum([Span(0, 0)]) == 0
  {
    IndicesSnoc([], Span(0, 0));
    assert [] + [Span(0, 0)] == [Span(0, 0)];
  }

  /** The loop that finds the end of the run starting at i. */
  method RunEnd(nz: seq<NativeBucket>, i: nat) returns (j: nat)
    requires i < |nz| && Ascending(nz)
    ensures i < j <= |nz|
    ensures forall k :: i <= k < j ==> nz[k].idx == nz[i].idx + (k - i)
    ensures j < |nz| ==> nz[j].idx > nz[j - 1].idx + 1
  {
    j := i + 1;
    while j < |nz| && nz[j].idx == nz[j - 1].idx + 1
      invariant i < j <= |nz|
      invariant forall k :: i <= k < j ==> nz[k].idx == nz[i].idx + (k - i)
    {
      j := j + 1;
    }
  }

  /** The loop that appends the deltas of the run from i to j. */
  method AppendDeltas(nz: seq<NativeBucket>, i: nat, j: nat, deltas: seq<int>, prevAbs: nat)
    returns (r: seq<int>, last: nat)
    requires i < j <= |nz| && forall k :: 0 <= k < |nz| ==> nz[k].count < TWO64
    requires Counts(deltas) == CountOf(nz[..i]) && |deltas| == i
    requires prevAbs == if i == 0 then 0 else nz[i - 1].count
    ensures Counts(r) == CountOf(nz[..j]) && |r| == j && last == nz[j - 1].count
  {
    r, last := deltas, prevAbs;
    for k := i to j
      invariant Counts(r) == CountOf(nz[..k]) && |r| == k
      invariant last == if k == 0 then 0 else nz[k - 1].count
    {
      var delta := Wrap64(Wrap64(nz[k].count) - Wrap64(last));
      DeltaReaches(last, nz[k].count);
      CountsSnoc(r, delta);
      assert CountOf(nz[..k + 1]) == CountOf(nz[..k]) + [nz[k].count];
      r := r + [delta];
      last := nz[k].count;
    }
  }

  /** The outer loop, run by run. */
  method EncodeRuns(nz: seq<NativeBucket>) returns (spans: seq<Span>, deltas: seq<int>)
    requires nz != [] && Ascending(nz) && forall k :: 0 <= k < |nz| ==> nz[k].count < TWO64
    ensures Indices(spans) == IdxOf(nz) && Counts(deltas) == CountOf(nz)
    ensures LengthSum(spans) == |deltas| == |nz| && Maximal(spans)
  {
    spans, deltas := [], [];
    var prevAbs, prevSpanEnd, firstSpan := 0, 0, true;
    var i := 0;
    while i < |nz|
      invariant 0 <= i <= |nz| && |deltas| == i && (firstSpan <==> i == 0) && (firstSpan <==> spans == [])
      invariant Counts(deltas) == CountOf(nz[..i])
      invariant prevAbs == if i == 0 then 0 else nz[i - 1].count
      invariant Indices(spans) == IdxOf(nz[..i]) && LengthSum(spans) == i && Maximal(spans)
      invariant EndOf(spans) == if i == 0 then 0 else prevSpanEnd + 1
      invariant 0 < i < |nz| ==> nz[i].idx > prevSpanEnd + 1
      decreases |nz| - i
    {
      var startIdx := nz[i].idx;
      var j := RunEnd(nz, i);
      var off;
      if firstSpan {
        off := startIdx;
        firstSpan := false;
      } else {
        off := startIdx - (prevSpanEnd + 1);
      }
      RunIndices(nz, i, j, spans, off);
      spans := spans + [Span(off, j - i)];
      deltas, prevAbs := AppendDeltas(nz, i, j, deltas, prevAbs);
      prevSpanEnd := nz[j - 1].idx;
      i := j;
    }
    assert nz[..|nz|] == nz;
  }

  lemma RunIndices(nz: seq<NativeBucket>, i: nat, j: nat, spans: seq<Span>, off: int)
    requires i < j <= |nz| && Indices(spans) == IdxOf(nz[..i])
    requires EndOf(spans) + off == nz[i].idx
    requires forall k :: i <= k < j ==> nz[k].idx == nz[i].idx + (k - i)
    ensures Indices(spans + [Span(off, j - i)]) == IdxOf(nz[..j])
    ensures EndOf(spans + [Span(off, j - i)]) == nz[j - 1].idx + 1
    ensures LengthSum(spans + [Span(off, j - i)]) == LengthSum(spans) + (j - i)
  {
    IndicesSnoc(spans, Span(off, j - i));
    assert IdxOf(nz[..j])[..i] == IdxOf(nz[..i]);
  }

  // ----- The encoding is canonical -----

  lemma {:induction false} LastIndex(spans: seq<Span>)
    requires Maximal(spans) && spans != []
    ensures Indices(spans) != [] && Indices(spans)[|Indices(spans)| - 1] == EndOf(spans) - 1
  {
  }

  /** The last run of a maximal span list reaches back to the first gap, or to the beginning. */
  lemma LastRun(spans: seq<Span>)
    requires Maximal(spans) && spans != []
    ensures var idxs, last := Indices(spans), spans[|spans| - 1];
            && last.length <= |idxs|
            && (forall k :: |idxs| - last.length <= k < |idxs| ==> idxs[k] == EndOf(spans) - |idxs| + k)
            && (last.length < |idxs| ==> idxs[|idxs| - last.length - 1] < EndOf(spans) - last.length - 1)
            && (|spans| == 1 ==> last.length == |idxs|)
            && (|spans| > 1 ==> last.length < |idxs|)
  {
    var prior := spans[..|spans| - 1];
    if prior != [] {
      LastIndex(prior);
    }
  }

  /** Only one maximal span list covers given buckets, so the exported one is the canonical one. */
  lemma {:induction false} MaximalUnique(xs: seq<Span>, ys: seq<Span>)
    requires Maximal(xs) && Maximal(ys) && Indices(xs) == Indices(ys)
    ensures xs == ys
    decreases |xs|
  {
    if xs == [] {
      if ys != [] { LastIndex(ys); }
    } else {
      SameLastRun(xs, ys);
      SamePrefix(xs, ys);
      MaximalUnique(xs[..|xs| - 1], ys[..|ys| - 1]);
      SameLastSpan(xs, ys);
    }
  }

  lemma SameLastSpan(xs: seq<Span>, ys: seq<Span>)
    requires xs != [] && ys != [] && xs[..|xs| - 1] == ys[..|ys| - 1]
    requires xs[|xs| - 1].length == ys[|ys| - 1].length && EndOf(xs) == EndOf(ys)
    ensures xs == ys
  {
    assert xs == xs[..|xs| - 1] + [xs[|xs| - 1]] && ys == ys[..|ys| - 1] + [ys[|ys| - 1]];
    assert xs[|xs| - 1].offset == ys[|ys| - 1].offset;
  }

  lemma SamePrefix(xs: seq<Span>, ys: seq<Span>)
    requires xs != [] && ys != [] && Indices(xs) == Indices(ys)
    requires xs[|xs| - 1].length == ys[|ys| - 1].length
    ensures Indices(xs[..|xs| - 1]) == Indices(ys[..|ys| - 1])
  {
    assert Indices(xs[..|xs| - 1]) == Indices(xs)[..|Indices(xs)| - xs[|xs| - 1].length];
    assert Indices(ys[..|ys| - 1]) == Indices(ys)[..|Indices(ys)| - ys[|ys| - 1].length];
  }

  lemma SameLastRun(xs: seq<Span>, ys: seq<Span>)
    requires Maximal(xs) && Maximal(ys) && xs != [] && Indices(xs) == Indices(ys)
    ensures ys != [] && xs[|xs| - 1].length == ys[|ys| - 1].length && EndOf(xs) == EndOf(ys)
  {
    LastIndex(xs);
    assert ys != [];
    LastIndex(ys);
    LastRun(xs);
    LastRun(ys);
  }

  // ----- Totals -----

  function Total(nz: seq<NativeBucket>): nat {
    if nz == [] then 0 else Total(nz[..|nz| - 1]) + nz[|nz| - 1].count
  }

  lemma {:induction false} TotalOfNonEmpty(offset: int, counts: seq<nat>)
    ensures Total(NonEmpty(offset, counts)) == H.Sum(counts)
  {
    if counts != [] {
      var n := |counts| - 1;
      TotalOfNonEmpty(offset, counts[..n]);
      var nz := NonEmpty(offset, counts);
      if counts[n] != 0 {
        assert nz[..|nz| - 1] == NonEmpty(offset, counts[..n]);
      } else {
        assert nz == NonEmpty(offset, counts[..n]);
      }
    }
  }

  /** For a recorded histogram the buckets read back, with the zero bucket, add up to its count. */
  lemma ReadBackTotal(scale: nat, ds: seq<int>)
    ensures var h := H.RecordAll(scale, ds);
            Total(NonEmpty(h.offset, h.counts)) + h.zeroCount == h.count
  {
    var h := H.RecordAll(scale, ds);
    H.WindowCountsObservations(scale, ds, 0);
    TotalOfNonEmpty(h.offset, h.counts);
  }

  /** The buckets read back are those some duration was mapped to, shifted to upper bounds. */
  lemma ReadBackObservations(scale: nat, ds: seq<int>, b: NativeBucket)
    ensures var h := H.RecordAll(scale, ds);
            b in NonEmpty(h.offset, h.counts) <==> b.count > 0 && b.count == H.Observed(ds, scale, b.idx - 1)
  {
    var h := H.RecordAll(scale, ds);
    H.WindowCountsObservations(scale, ds, b.idx - 1);
    NonEmptyIsBucket(h, b);
  }

  lemma NonEmptyIsBucket(h: H.Hist, b: NativeBucket)
    ensures b in NonEmpty(h.offset, h.counts) <==> b.count > 0 && b.count == H.Bucket(h, b.idx - 1)
  {
    NonEmptyIff(h.offset, h.counts, b);
  }
}
