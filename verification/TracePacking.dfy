/** `traces_under_gb` (valvetraces): as many traces as fit strictly under a size limit. */
module TracePacking {
  datatype Trace = Trace(filename: string, size: int)

  /** The size of the first `n` traces together. */
  function Sum(ts: seq<Trace>, n: nat): int
    requires n <= |ts|
  {
    if n == 0 then 0 else Sum(ts, n - 1) + ts[n - 1].size
  }

  function Total(ts: seq<Trace>): int {
    Sum(ts, |ts|)
  }

  ghost predicate SortedBySize(ts: seq<Trace>) {
    forall i, j :: 0 <= i < j < |ts| ==> ts[i].size <= ts[j].size
  }

  /** Inserts after the traces of the same size, as a stable sort does. */
  function Insert(t: Trace, ts: seq<Trace>): seq<Trace> {
    if |ts| == 0 then [t]
    else if ts[|ts| - 1].size <= t.size then ts + [t]
    else Insert(t, ts[..|ts| - 1]) + [ts[|ts| - 1]]
  }

  /** `sorted(ts, key=size)`. */
  function Sort(ts: seq<Trace>): seq<Trace> {
    if |ts| == 0 then [] else Insert(ts[|ts| - 1], Sort(ts[..|ts| - 1]))
  }

  lemma MultisetSnoc(ts: seq<Trace>, t: Trace)
    ensures multiset(ts + [t]) == multiset(ts) + multiset{t}
  {
  }

  lemma MultisetFront(ts: seq<Trace>)
    requires |ts| > 0
    ensures multiset(ts) == multiset(ts[..|ts| - 1]) + multiset{ts[|ts| - 1]}
  {
    MultisetSnoc(ts[..|ts| - 1], ts[|ts| - 1]);
    assert ts == ts[..|ts| - 1] + [ts[|ts| - 1]];
  }

  lemma {:induction false} InsertPermutes(t: Trace, ts: seq<Trace>)
    ensures multiset(Insert(t, ts)) == multiset(ts) + multiset{t}
  {
    if |ts| == 0 {
      assert ts == [];
    } else if ts[|ts| - 1].size <= t.size {
      MultisetSnoc(ts, t);
    } else {
      InsertPermutes(t, ts[..|ts| - 1]);
      MultisetFront(ts);
      MultisetSnoc(Insert(t, ts[..|ts| - 1]), ts[|ts| - 1]);
    }
  }

  /** Every trace is at most this large. */
  ghost predicate AtMost(ts: seq<Trace>, size: int) {
    forall i :: 0 <= i < |ts| ==> ts[i].size <= size
  }

  lemma {:induction false} InsertSorts(t: Trace, ts: seq<Trace>, size: int)
    requires SortedBySize(ts) && AtMost(ts, size) && t.size <= size
    ensures SortedBySize(Insert(t, ts)) && AtMost(Insert(t, ts), size)
  {
    if |ts| > 0 && ts[|ts| - 1].size > t.size {
      InsertSorts(t, ts[..|ts| - 1], ts[|ts| - 1].size);
    }
  }

  lemma {:induction false} SortSorts(ts: seq<Trace>)
    ensures SortedBySize(Sort(ts)) && multiset(Sort(ts)) == multiset(ts)
  {
    if |ts| == 0 {
      assert ts == [];
    } else {
      var t, sorted := ts[|ts| - 1], Sort(ts[..|ts| - 1]);
      SortSorts(ts[..|ts| - 1]);
      MultisetFront(ts);
      InsertPermutes(t, sorted);
      var largest := if |sorted| == 0 || sorted[|sorted| - 1].size < t.size then t.size else sorted[|sorted| - 1].size;
      InsertSorts(t, sorted, largest);
    }
  }

  /** Whatever traces are chosen, each at most as often as listed, no more than `n` stay strictly under the limit. */
  ghost predicate NoneHoldsMore(traces: seq<Trace>, maxBytes: real, n: nat) {
    forall some: seq<Trace> :: multiset(some) <= multiset(traces) && (Total(some) as real) < maxBytes ==> |some| <= n
  }

  /** The smallest traces, strictly under the limit, and as many as any choice under the limit can hold. */
  method TracesUnder(traces: seq<Trace>, maxBytes: real) returns (selected: seq<Trace>)
    ensures selected <= Sort(traces)
    ensures selected != [] ==> (Total(selected) as real) < maxBytes
    ensures (forall t :: t in traces ==> t.size >= 0) ==> NoneHoldsMore(traces, maxBytes, |selected|)
  {
    selected := SmallestUnder(traces, maxBytes);
    if forall t :: t in traces ==> t.size >= 0 {
      forall some: seq<Trace> | multiset(some) <= multiset(traces) && (Total(some) as real) < maxBytes
        ensures |some| <= |selected|
      {
        MostTracesThatFit(traces, maxBytes, selected, some);
      }
    }
  }

  /** The loop: the longest run of smallest traces that stays under the limit. */
  method SmallestUnder(traces: seq<Trace>, maxBytes: real) returns (selected: seq<Trace>)
    ensures selected <= Sort(traces)
    ensures selected != [] ==> (Total(selected) as real) < maxBytes
    ensures |selected| < |Sort(traces)| ==> Sum(Sort(traces), |selected| + 1) as real >= maxBytes
  {
    var sorted := Sort(traces);
    var taken := 0;
    selected := [];
    for i := 0 to |sorted|
      invariant selected == sorted[..i] && taken == Sum(sorted, i)
      invariant i > 0 ==> (taken as real) < maxBytes
    {
      SamePrefixSum(selected, sorted, i);
      taken := taken + sorted[i].size;
      if taken as real >= maxBytes {
        return;
      }
      selected := selected + [sorted[i]];
    }
    SamePrefixSum(selected, sorted, |sorted|);
  }

  // ---------------------------------------------------------------------------
  // Optimality

  lemma {:induction false} SamePrefixSum(a: seq<Trace>, b: seq<Trace>, n: nat)
    requires n <= |a| && n <= |b| && forall k :: 0 <= k < n ==> a[k] == b[k]
    ensures Sum(a, n) == Sum(b, n)
  {
    if n > 0 {
      SamePrefixSum(a, b, n - 1);
    }
  }

  function Without(ts: seq<Trace>, i: nat): (r: seq<Trace>)
    requires i < |ts|
    ensures |r| == |ts| - 1
    ensures forall k :: 0 <= k < |r| ==> r[k] == if k < i then ts[k] else ts[k + 1]
  {
    ts[..i] + ts[i + 1..]
  }

  lemma {:induction false} TakeOutSum(ts: seq<Trace>, i: nat, n: nat)
    requires i < |ts| && i <= n < |ts|
    ensures Sum(ts, n + 1) == Sum(Without(ts, i), n) + ts[i].size
  {
    if n == i {
      SamePrefixSum(ts, Without(ts, i), i);
    } else {
      TakeOutSum(ts, i, n - 1);
    }
  }

  lemma TakeOutMultiset(ts: seq<Trace>, i: nat)
    requires i < |ts|
    ensures multiset(Without(ts, i)) == multiset(ts) - multiset{ts[i]}
  {
    var a, b := ts[..i], ts[i + 1..];
    assert ts == (a + [ts[i]]) + b;
    assert multiset((a + [ts[i]]) + b) == (multiset(a) + multiset{ts[i]}) + multiset(b);
    assert multiset(a + b) == multiset(a) + multiset(b);
  }

  /** A choice from the sorted traces that is not one from all of them but the last holds the last. */
  lemma FindLast(sorted: seq<Trace>, some: seq<Trace>) returns (i: nat)
    requires |sorted| > 0 && multiset(some) <= multiset(sorted)
    requires !(multiset(some) <= multiset(sorted[..|sorted| - 1]))
    ensures i < |some| && some[i] == sorted[|sorted| - 1]
    ensures multiset(Without(some, i)) <= multiset(sorted[..|sorted| - 1])
  {
    var last := sorted[|sorted| - 1];
    MultisetFront(sorted);
    assert last in multiset(some);
    assert last in some;
    i :| 0 <= i < |some| && some[i] == last;
    TakeOutMultiset(some, i);
  }

  lemma PutLastBack(sorted: seq<Trace>, some: seq<Trace>, i: nat)
    requires 0 < |some| <= |sorted| && SortedBySize(sorted) && i < |some| && some[i] == sorted[|sorted| - 1]
    requires Sum(sorted[..|sorted| - 1], |some| - 1) <= Total(Without(some, i))
    ensures Sum(sorted, |some|) <= Total(some)
  {
    var n := |some| - 1;
    SamePrefixSum(sorted[..|sorted| - 1], sorted, n);
    TakeOutSum(some, i, n);
    assert sorted[n].size <= some[i].size;
    assert Sum(sorted, n + 1) == Sum(sorted, n) + sorted[n].size;
  }

  /** No `m` traces are smaller together than the `m` smallest ones. */
  lemma {:induction false} SmallestTotal(sorted: seq<Trace>, some: seq<Trace>)
    requires SortedBySize(sorted) && multiset(some) <= multiset(sorted)
    ensures |some| <= |sorted| && Sum(sorted, |some|) <= Total(some)
    decreases |sorted|
  {
    if |sorted| == 0 {
      NoneOfNone(some);
    } else {
      var front := sorted[..|sorted| - 1];
      if multiset(some) <= multiset(front) {
        SmallestTotal(front, some);
        SamePrefixSum(front, sorted, |some|);
      } else {
        var i := FindLast(sorted, some);
        SmallestTotal(front, Without(some, i));
        PutLastBack(sorted, some, i);
      }
    }
  }

  lemma NoneOfNone(some: seq<Trace>)
    requires multiset(some) <= multiset([])
    ensures some == []
  {
    assert |multiset(some)| == |some|;
  }

  lemma {:induction false} SumGrows(ts: seq<Trace>, i: nat, j: nat)
    requires i <= j <= |ts| && forall k :: 0 <= k < |ts| ==> ts[k].size >= 0
    ensures Sum(ts, i) <= Sum(ts, j)
    decreases j
  {
    if i < j {
      SumGrows(ts, i, j - 1);
    }
  }

  /**
   The choice is optimal: any other choice of traces, each taken at most as often as it was listed,
   that stays strictly under the limit holds no more traces than `TracesUnder` selects.
   */
  lemma MostTracesThatFit(traces: seq<Trace>, maxBytes: real, selected: seq<Trace>, some: seq<Trace>)
    requires forall t :: t in traces ==> t.size >= 0
    requires selected <= Sort(traces)
    requires |selected| < |Sort(traces)| ==> Sum(Sort(traces), |selected| + 1) as real >= maxBytes
    requires multiset(some) <= multiset(traces) && (Total(some) as real) < maxBytes
    ensures |some| <= |selected|
  {
    var sorted := Sort(traces);
    SortSorts(traces);
    SmallestTotal(sorted, some);
    if |some| > |selected| {
      forall k | 0 <= k < |sorted|
        ensures sorted[k].size >= 0
      {
        assert sorted[k] in multiset(sorted);
      }
      SumGrows(sorted, |selected| + 1, |some|);
    }
  }
}
