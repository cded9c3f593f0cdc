/** The export to classic cumulative buckets, and its agreement with the native one. */
module ClassicHistogram {
  import opened Wrappers
  import H = Histogram
  import N = NativeHistogram

  /** The sum of the first k counts. */
  function Cumulative(counts: seq<nat>, k: int): nat {
    if counts == [] then 0
    else
      var n := |counts| - 1;
      Cumulative(counts[..n], k) + if n < k then counts[n] else 0
  }

  lemma {:induction false} CumulativeNext(counts: seq<nat>, k: nat)
    requires k < |counts|
    ensures Cumulative(counts, k + 1) == Cumulative(counts, k) + counts[k]
  {
    var n := |counts| - 1;
    if k < n {
      CumulativeNext(counts[..n], k);
    } else {
      CumulativeBeyond(counts[..n], k);
      CumulativeBeyond(counts[..n], k + 1);
    }
  }

  lemma {:induction false} CumulativeBeyond(counts: seq<nat>, k: nat)
    requires k >= |counts|
    ensures Cumulative(counts, k) == H.Sum(counts)
  {
    if counts != [] { CumulativeBeyond(counts[..|counts| - 1], k); }
  }

  lemma {:induction false} CumulativeNone(counts: seq<nat>)
    ensures Cumulative(counts, 0) == 0
  {
    if counts != [] { CumulativeNone(counts[..|counts| - 1]); }
  }

  /**
   emitHistogram's bucket map, keyed by upper-bound index: cumulative counts, one entry for each
   position of the window; nothing at all for an empty histogram.
   */
  method EmitHistogram(s: N.Snapshot) returns (buckets: Option<map<int, nat>>)
    ensures buckets.None? <==> s.count == 0
    ensures buckets.Some? ==> forall idx :: idx in buckets.value <==> s.offset < idx <= s.offset + |s.counts|
    ensures buckets.Some? ==> forall idx :: idx in buckets.value ==>
              buckets.value[idx] == Cumulative(s.counts, idx - s.offset)
  {
    if s.count == 0 {
      return None;
    }
    var m: map<int, nat> := map[];
    var cumulative := 0;
    CumulativeNone(s.counts);
    for i := 0 to |s.counts|
      invariant cumulative == Cumulative(s.counts, i)
      invariant forall idx :: idx in m <==> s.offset < idx <= s.offset + i
      invariant forall idx :: idx in m ==> m[idx] == Cumulative(s.counts, idx - s.offset)
    {
      CumulativeNext(s.counts, i);
      cumulative := cumulative + s.counts[i];
      m := m[s.offset + i + 1 := cumulative];
    }
    buckets := Some(m);
  }

  /** The native buckets up to an upper-bound index, added up. */
  function TotalUpTo(nz: seq<N.NativeBucket>, idx: int): nat {
    if nz == [] then 0
    else TotalUpTo(nz[..|nz| - 1], idx) + if nz[|nz| - 1].idx <= idx then nz[|nz| - 1].count else 0
  }

  /** A classic bucket is the sum of the native buckets up to its upper bound. */
  lemma {:induction false} ClassicIsNativePrefix(offset: int, counts: seq<nat>, k: int)
    ensures Cumulative(counts, k) == TotalUpTo(N.NonEmpty(offset, counts), offset + k)
  {
    if counts != [] {
      ClassicIsNativePrefix(offset, counts[..|counts| - 1], k);
      TotalUpToLast(offset, counts, offset + k);
    }
  }

  lemma TotalUpToLast(offset: int, counts: seq<nat>, idx: int)
    requires counts != []
    ensures var n := |counts| - 1;
            TotalUpTo(N.NonEmpty(offset, counts), idx)
            == TotalUpTo(N.NonEmpty(offset, counts[..n]), idx) + if offset + n + 1 <= idx then counts[n] else 0
  {
    var n := |counts| - 1;
    var prior, nz := N.NonEmpty(offset, counts[..n]), N.NonEmpty(offset, counts);
    if counts[n] != 0 { assert nz[..|nz| - 1] == prior; } else { assert nz == prior; }
  }

  lemma {:induction false} CumulativeMonotone(counts: seq<nat>, j: int, k: int)
    requires j <= k
    ensures Cumulative(counts, j) <= Cumulative(counts, k)
  {
    if counts != [] { CumulativeMonotone(counts[..|counts| - 1], j, k); }
  }

  /**
   For a recorded histogram: classic buckets agree with the native ones, never decrease with the
   bound, and end at the count without the zero bucket.
   */
  lemma ExportsAgree(scale: nat, ds: seq<int>, j: int, k: int)
    requires j <= k
    ensures var h := H.RecordAll(scale, ds);
            && Cumulative(h.counts, k) == TotalUpTo(N.NonEmpty(h.offset, h.counts), h.offset + k)
            && Cumulative(h.counts, j) <= Cumulative(h.counts, k)
            && Cumulative(h.counts, |h.counts|) == h.count - h.zeroCount
  {
    var h := H.RecordAll(scale, ds);
    CountsAddUp(scale, ds);
    ClassicIsNativePrefix(h.offset, h.counts, k);
    CumulativeMonotone(h.counts, j, k);
    CumulativeBeyond(h.counts, |h.counts|);
  }

  lemma CountsAddUp(scale: nat, ds: seq<int>)
    ensures var h := H.RecordAll(scale, ds); h.count == h.zeroCount + H.Sum(h.counts)
  {
    H.WindowCountsObservations(scale, ds, 0);
  }
}
