/**
 * `MergedKeyValueIterator`: a k-way merge of key/value sources through a
 * min-heap of (record, source index) entries ordered by the key comparator.
 *
 * Each source is modelled by its contents and a read position. The heap never
 * holds two entries of the same source (an entry is added for a source only
 * right after that source's entry was polled), so it is modelled as a map
 * from source index to that source's entry. `poll` may return any entry of minimum key: a
 * `PriorityQueue` is not stable among ties.
 */
module MergedKeyValueIterators {
  import opened Wrappers
  import opened Ordering

  /** The sources one after another. */
  function Flatten<T>(ss: seq<seq<T>>): seq<T> {
    if |ss| == 0 then [] else ss[0] + Flatten(ss[1..])
  }

  ghost predicate CountsFit<T>(ss: seq<seq<T>>, t: seq<nat>) {
    |t| == |ss| && forall i :: 0 <= i < |ss| ==> t[i] <= |ss[i]|
  }

  /** The first `t[i]` records of every source `i`, source by source. */
  function Prefixes<T>(ss: seq<seq<T>>, t: seq<nat>): seq<T>
    requires CountsFit(ss, t)
  {
    if |ss| == 0 then [] else ss[0][..t[0]] + Prefixes(ss[1..], t[1..])
  }

  /** Taking one more record from source `i` adds exactly that record. */
  lemma {:induction false} PrefixesAdvance<T>(ss: seq<seq<T>>, t: seq<nat>, i: nat)
    requires CountsFit(ss, t) && i < |ss| && t[i] < |ss[i]|
    ensures CountsFit(ss, t[i := t[i] + 1])
    ensures multiset(Prefixes(ss, t[i := t[i] + 1])) == multiset(Prefixes(ss, t)) + multiset{ss[i][t[i]]}
  {
    var u := t[i := t[i] + 1];
    if i == 0 {
      assert u[1..] == t[1..];
      assert ss[0][..t[0] + 1] == ss[0][..t[0]] + [ss[0][t[0]]];
    } else {
      assert u[1..] == t[1..][i - 1 := t[i] + 1];
      PrefixesAdvance(ss[1..], t[1..], i - 1);
    }
  }

  lemma {:induction false} PrefixesNone<T>(ss: seq<seq<T>>, t: seq<nat>)
    requires |t| == |ss| && forall i :: 0 <= i < |t| ==> t[i] == 0
    ensures CountsFit(ss, t) && Prefixes(ss, t) == []
  {
    if |ss| > 0 {
      PrefixesNone(ss[1..], t[1..]);
    }
  }

  lemma {:induction false} PrefixesAll<T>(ss: seq<seq<T>>, t: seq<nat>)
    requires |t| == |ss| && forall i :: 0 <= i < |t| ==> t[i] == |ss[i]|
    ensures CountsFit(ss, t) && Prefixes(ss, t) == Flatten(ss)
  {
    if |ss| > 0 {
      PrefixesAll(ss[1..], t[1..]);
      assert ss[0][..t[0]] == ss[0];
    }
  }

  lemma {:induction false} PrefixesBound<T>(ss: seq<seq<T>>, t: seq<nat>)
    requires CountsFit(ss, t)
    ensures |Prefixes(ss, t)| <= |Flatten(ss)|
  {
    if |ss| > 0 {
      PrefixesBound(ss[1..], t[1..]);
    }
  }

  ghost predicate AllSorted<K, V>(ss: seq<seq<(K, V)>>, cmp: (K, K) -> int) {
    forall i :: 0 <= i < |ss| ==> SortedByKey(ss[i], cmp)
  }

  /** The entry of source `idx` has a key no greater than any other entry's. */
  predicate IsMinimumAt<K, V>(heap: map<nat, (K, V)>, cmp: (K, K) -> int, idx: nat) {
    idx in heap && forall t :: t in heap ==> cmp(heap[idx].0, heap[t].0) <= 0
  }

  /** A non-empty heap has a minimum (the comparator is total). */
  lemma MinimumExists<K(!new), V>(heap: map<nat, (K, V)>, cmp: (K, K) -> int)
    requires ValidComparator(cmp) && |heap| > 0
    ensures exists idx :: IsMinimumAt(heap, cmp, idx)
    decreases |heap|
  {
    var k :| k in heap;
    var rest := heap - {k};
    if |rest| == 0 {
      assert rest.Keys == {};
      assert heap.Keys == rest.Keys + {k};
      assert IsMinimumAt(heap, cmp, k);
    } else {
      MinimumExists(rest, cmp);
      var i :| IsMinimumAt(rest, cmp, i);
      if cmp(heap[i].0, heap[k].0) <= 0 {
        forall t | t in heap ensures cmp(heap[i].0, heap[t].0) <= 0 {
          if t != k { assert t in rest; }
        }
        assert IsMinimumAt(heap, cmp, i);
      } else {
        forall t | t in heap ensures cmp(heap[k].0, heap[t].0) <= 0 {
          if t != k {
            assert t in rest;
            assert cmp(heap[i].0, heap[t].0) <= 0;
          }
        }
        assert IsMinimumAt(heap, cmp, k);
      }
    }
  }

  // ------------------------------------------------------------ the invariant

  /**
   * The merge invariant on plain values. `ps[i]` records have been read from
   * source `i`; `taken[i]` of them have been returned, which is all of them
   * except the one sitting in the heap.
   */
  ghost predicate HeapInv<K(!new), V>(ss: seq<seq<(K, V)>>, cmp: (K, K) -> int, ps: seq<nat>,
                                      heap: map<nat, (K, V)>, taken: seq<nat>, out: seq<(K, V)>) {
    && ValidComparator(cmp)
    && CountsFit(ss, ps) && CountsFit(ss, taken)
    // an entry holds the last record read from its source
    && (forall i :: i in heap ==> i < |ss| && 1 <= ps[i] && heap[i] == ss[i][ps[i] - 1])
    && (forall i :: 0 <= i < |ss| ==> taken[i] == if i in heap then ps[i] - 1 else ps[i])
    // a source without an entry is exhausted
    && (forall i :: 0 <= i < |ss| && i !in heap ==> ps[i] == |ss[i]|)
    // the output is exactly the records taken, with multiplicity
    && multiset(out) == multiset(Prefixes(ss, taken))
    // with sorted sources the output is sorted and no greater than any entry
    && (AllSorted(ss, cmp) ==>
          SortedByKey(out, cmp) &&
          forall x, i :: 0 <= x < |out| && i in heap ==> cmp(out[x].0, heap[i].0) <= 0)
  }

  /** The invariant just after the entry of source `idx` was polled and returned. */
  ghost predicate PolledInv<K(!new), V>(ss: seq<seq<(K, V)>>, cmp: (K, K) -> int, ps: seq<nat>,
                                        heap: map<nat, (K, V)>, taken: seq<nat>, out: seq<(K, V)>, idx: nat) {
    && ValidComparator(cmp)
    && CountsFit(ss, ps) && CountsFit(ss, taken)
    && idx < |ss| && idx !in heap && 1 <= ps[idx]
    && |out| > 0 && out[|out| - 1] == ss[idx][ps[idx] - 1]
    && (forall i :: i in heap ==> i < |ss| && 1 <= ps[i] && heap[i] == ss[i][ps[i] - 1])
    && (forall i :: 0 <= i < |ss| ==> taken[i] == if i in heap then ps[i] - 1 else ps[i])
    && (forall i :: 0 <= i < |ss| && i !in heap && i != idx ==> ps[i] == |ss[i]|)
    && multiset(out) == multiset(Prefixes(ss, taken))
    && (AllSorted(ss, cmp) ==>
          SortedByKey(out, cmp) &&
          forall x, i :: 0 <= x < |out| && i in heap ==> cmp(out[x].0, heap[i].0) <= 0)
  }

  lemma PollOrder<K(!new), V>(ss: seq<seq<(K, V)>>, cmp: (K, K) -> int, heap: map<nat, (K, V)>,
                              out: seq<(K, V)>, idx: nat)
    requires ValidComparator(cmp) && IsMinimumAt(heap, cmp, idx)
    requires AllSorted(ss, cmp) ==>
               SortedByKey(out, cmp) &&
               forall x, i :: 0 <= x < |out| && i in heap ==> cmp(out[x].0, heap[i].0) <= 0
    ensures AllSorted(ss, cmp) ==>
              SortedByKey(out + [heap[idx]], cmp) &&
              forall x, i :: 0 <= x < |out| + 1 && i in heap - {idx} ==>
                cmp((out + [heap[idx]])[x].0, (heap - {idx})[i].0) <= 0
  {
    if AllSorted(ss, cmp) {
      var out' := out + [heap[idx]];
      forall x, y | 0 <= x < y < |out'| ensures cmp(out'[x].0, out'[y].0) <= 0 {
        assert out'[x] == out[x];
      }
      forall x, i | 0 <= x < |out'| && i in heap - {idx} ensures cmp(out'[x].0, (heap - {idx})[i].0) <= 0 {
        if x < |out| {
          assert out'[x] == out[x];
        }
      }
    }
  }

  /** Polling a minimum entry: its record goes to the output. */
  lemma PollKeeps<K(!new), V>(ss: seq<seq<(K, V)>>, cmp: (K, K) -> int, ps: seq<nat>,
                              heap: map<nat, (K, V)>, taken: seq<nat>, out: seq<(K, V)>, idx: nat)
    requires HeapInv(ss, cmp, ps, heap, taken, out) && IsMinimumAt(heap, cmp, idx)
    ensures PolledInv(ss, cmp, ps, heap - {idx}, taken[idx := taken[idx] + 1], out + [heap[idx]], idx)
  {
    PrefixesAdvance(ss, taken, idx);
    PollOrder(ss, cmp, heap, out, idx);
  }

  /** Refilling from the polled source restores the invariant. */
  lemma RefillKeeps<K(!new), V>(ss: seq<seq<(K, V)>>, cmp: (K, K) -> int, ps: seq<nat>,
                                heap: map<nat, (K, V)>, taken: seq<nat>, out: seq<(K, V)>, idx: nat)
    requires PolledInv(ss, cmp, ps, heap, taken, out, idx) && ps[idx] < |ss[idx]|
    ensures HeapInv(ss, cmp, ps[idx := ps[idx] + 1], heap[idx := ss[idx][ps[idx]]], taken, out)
  {
    var next := ss[idx][ps[idx]];
    var heap' := heap[idx := next];
    if AllSorted(ss, cmp) {
      var last := |out| - 1;
      assert cmp(out[last].0, next.0) <= 0 by {
        assert SortedByKey(ss[idx], cmp);
      }
      forall x, i | 0 <= x < |out| && i in heap' ensures cmp(out[x].0, heap'[i].0) <= 0 {
        if i == idx && x < last {
          assert cmp(out[x].0, out[last].0) <= 0;
        }
      }
    }
  }

  /** A polled source that is exhausted needs no entry. */
  lemma ExhaustedKeeps<K(!new), V>(ss: seq<seq<(K, V)>>, cmp: (K, K) -> int, ps: seq<nat>,
                                   heap: map<nat, (K, V)>, taken: seq<nat>, out: seq<(K, V)>, idx: nat)
    requires PolledInv(ss, cmp, ps, heap, taken, out, idx) && ps[idx] == |ss[idx]|
    ensures HeapInv(ss, cmp, ps, heap, taken, out)
  {
  }

  /** The numbers below `n`. */
  function Below(n: nat): (r: set<nat>)
    ensures |r| == n
    ensures forall i: nat :: i in r <==> i < n
  {
    if n == 0 then {}
    else
      var b := Below(n - 1);
      assert n - 1 !in b;
      b + {n - 1}
  }

  lemma {:induction false} SubsetSize(a: set<nat>, b: set<nat>)
    requires a <= b
    ensures |a| <= |b|
    decreases |b|
  {
    if |a| > 0 {
      var x :| x in a;
      SubsetSize(a - {x}, b - {x});
    }
  }

  /** The constructor's loop: the first record of every non-empty source, keyed by its index. */
  method InitialHeap<K, V>(sources: seq<seq<(K, V)>>) returns (ps: seq<nat>, heap: map<nat, (K, V)>)
    ensures |ps| == |sources|
    ensures forall i :: 0 <= i < |sources| ==> ps[i] == if |sources[i]| > 0 then 1 else 0
    ensures forall i :: 0 <= i < |sources| ==> (i in heap <==> |sources[i]| > 0)
    ensures forall i :: i in heap ==> i < |sources| && |sources[i]| > 0 && heap[i] == sources[i][0]
  {
    ps := seq(|sources|, _ => 0);
    heap := map[];
    var i := 0;
    while i < |sources|
      invariant 0 <= i <= |sources| && |ps| == |sources|
      invariant forall j :: i <= j < |sources| ==> ps[j] == 0
      invariant forall j :: 0 <= j < i ==> ps[j] == if |sources[j]| > 0 then 1 else 0
      invariant forall j :: 0 <= j < i ==> (j in heap <==> |sources[j]| > 0)
      invariant forall j :: j in heap ==> j < i && |sources[j]| > 0 && heap[j] == sources[j][0]
    {
      if |sources[i]| > 0 {
        heap := heap[i := sources[i][0]];
        ps := ps[i := 1];
      }
      i := i + 1;
    }
  }

  /**
   * One `next` on plain values: the positions and heap once the entry of
   * source `idx` was polled, with that source's next record, if it has one,
   * in the entry's place.
   */
  function Refilled<K, V>(ss: seq<seq<(K, V)>>, ps: seq<nat>, heap: map<nat, (K, V)>, idx: nat)
    : (r: (seq<nat>, map<nat, (K, V)>))
    requires idx in heap && idx < |ss| == |ps| && ps[idx] <= |ss[idx]|
    ensures |r.0| == |ps|
    ensures idx in r.1 <==> ps[idx] < |ss[idx]|
    ensures |r.1| == if ps[idx] < |ss[idx]| then |heap| else |heap| - 1
    ensures forall i :: i != idx ==> (i in r.1 <==> i in heap)
  {
    var h := heap - {idx};
    assert |h| == |heap| - 1 by {
      assert heap.Keys == h.Keys + {idx};
    }
    if ps[idx] < |ss[idx]| then (ps[idx := ps[idx] + 1], h[idx := ss[idx][ps[idx]]])
    else (ps, h)
  }

  method PollAndRefill<K(!new), V>(ss: seq<seq<(K, V)>>, cmp: (K, K) -> int, ps0: seq<nat>,
                                   heap0: map<nat, (K, V)>, ghost taken0: seq<nat>, ghost out: seq<(K, V)>, idx: nat)
    returns (ps: seq<nat>, heap: map<nat, (K, V)>, ghost taken: seq<nat>)
    requires HeapInv(ss, cmp, ps0, heap0, taken0, out) && IsMinimumAt(heap0, cmp, idx)
    ensures HeapInv(ss, cmp, ps, heap, taken, out + [heap0[idx]])
    ensures (ps, heap) == Refilled(ss, ps0, heap0, idx)
  {
    PollKeeps(ss, cmp, ps0, heap0, taken0, out, idx);
    var h := heap0 - {idx};
    taken := taken0[idx := taken0[idx] + 1];
    assert |h| == |heap0| - 1 by {
      assert heap0.Keys == h.Keys + {idx};
    }
    if ps0[idx] < |ss[idx]| {
      RefillKeeps(ss, cmp, ps0, h, taken, out + [heap0[idx]], idx);
      ps, heap := ps0[idx := ps0[idx] + 1], h[idx := ss[idx][ps0[idx]]];
    } else {
      ExhaustedKeeps(ss, cmp, ps0, h, taken, out + [heap0[idx]], idx);
      ps, heap := ps0, h;
    }
  }

  class MergedKeyValueIterator<K(!new), V> {
    const sources: seq<seq<(K, V)>>
    const cmp: (K, K) -> int
    /** How many records have been read from each source. */
    var positions: seq<nat>
    /** The heap: for each source that has an entry, that entry's record. */
    var heap: map<nat, (K, V)>
    /** How many records of each source have been returned. */
    ghost var taken: seq<nat>
    /** The records returned so far. */
    ghost var emitted: seq<(K, V)>

    ghost predicate Valid()
      reads this
    {
      HeapInv(sources, cmp, positions, heap, taken, emitted)
    }

    /** Puts the first record of every non-empty source into the heap, tagged with its index. */
    constructor (sources: seq<seq<(K, V)>>, cmp: (K, K) -> int)
      requires ValidComparator(cmp)
      ensures Valid() && emitted == []
      ensures this.sources == sources && this.cmp == cmp
      ensures forall i :: 0 <= i < |sources| ==> (i in heap <==> |sources[i]| > 0)
      ensures forall i :: i in heap ==> i < |sources| && heap[i] == sources[i][0]
    {
      var ps, h := InitialHeap(sources);
      var zeros: seq<nat> := seq(|sources|, _ => 0);
      PrefixesNone(sources, zeros);
      this.sources := sources;
      this.cmp := cmp;
      positions := ps;
      heap := h;
      taken := zeros;
      emitted := [];
    }

    /** Replaces the iterator's state by one that satisfies the invariant. */
    method SetState(ps: seq<nat>, h: map<nat, (K, V)>, ghost t: seq<nat>, ghost e: seq<(K, V)>)
      requires HeapInv(sources, cmp, ps, h, t, e)
      modifies this
      ensures Valid()
      ensures positions == ps && heap == h && taken == t && emitted == e
    {
      positions, heap, taken, emitted := ps, h, t, e;
    }

    /** The heap is not empty. */
    function HasNext(): (b: bool)
      reads this
      ensures b <==> |heap| > 0
    {
      |heap| > 0
    }

    /** At most one entry per source. */
    lemma HeapBounded()
      requires Valid()
      ensures |heap| <= |sources|
    {
      assert heap.Keys <= Below(|sources|);
      SubsetSize(heap.Keys, Below(|sources|));
    }

    /** The records returned are a sub-multiset of all records; all of them once the heap is empty. */
    lemma Progress()
      requires Valid()
      ensures |emitted| <= |Flatten(sources)|
      ensures |heap| == 0 ==> multiset(emitted) == multiset(Flatten(sources))
    {
      PrefixesBound(sources, taken);
      assert |multiset(emitted)| == |multiset(Prefixes(sources, taken))|;
      if |heap| == 0 {
        forall i | 0 <= i < |sources| ensures taken[i] == |sources[i]| {
          assert i !in heap;
        }
        PrefixesAll(sources, taken);
      }
    }

    /**
     * Polls an entry of minimum key, from source `from`, and refills the heap
     * from that source only. An empty heap is a NoSuchElementException.
     */
    method Next() returns (r: Result<(K, V)>, from: nat)
      requires Valid()
      modifies this
      ensures Valid()
      ensures old(|heap|) == 0 <==> r.Err?
      ensures r.Err? ==> r.error == NoSuchElement && unchanged(this)
      ensures r.Ok? ==> IsMinimumAt(old(heap), cmp, from) && r.value == old(heap)[from]
      ensures r.Ok? ==> emitted == old(emitted) + [r.value]
      ensures r.Ok? ==> (positions, heap) == Refilled(sources, old(positions), old(heap), from)
    {
      if |heap| == 0 {
        return Err(NoSuchElement), 0;
      }
      MinimumExists(heap, cmp);
      var idx :| idx in heap && IsMinimumAt(heap, cmp, idx);
      var m := heap[idx];
      var ps, h, t := PollAndRefill(sources, cmp, positions, heap, taken, emitted, idx);
      SetState(ps, h, t, emitted + [m]);
      return Ok(m), idx;
    }
  }

  /**
   * Drains a merge: the output is a permutation of all the records, and it is
   * key-sorted whenever every source is.
   */
  method MergeAll<K(!new), V>(sources: seq<seq<(K, V)>>, cmp: (K, K) -> int) returns (out: seq<(K, V)>)
    requires ValidComparator(cmp)
    ensures multiset(out) == multiset(Flatten(sources))
    ensures |out| == |Flatten(sources)|
    ensures AllSorted(sources, cmp) ==> SortedByKey(out, cmp)
  {
    var it := new MergedKeyValueIterator(sources, cmp);
    out := [];
    while it.HasNext()
      invariant it.Valid() && it.sources == sources && it.cmp == cmp
      invariant out == it.emitted
      decreases |Flatten(sources)| - |out|
    {
      it.Progress();
      var r, _ := it.Next();
      out := out + [r.value];
      it.Progress();
    }
    it.Progress();
  }
}
