/**
 * `AltSortedFileSink`: an external sort that reduces before it spills. Each
 * put appends the value to its key's list in a hash map; once the put
 * counter reaches the threshold the buffer is flushed: the reducer runs once
 * per buffered key (in the map's iteration order), the emitted pairs are
 * sorted by key into one run and spilled to a dump file. `close` flushes and
 * merges the dumps into the output file.
 */
module AltSortedFileSinks {
  import opened Wrappers
  import opened Ordering
  import opened KeyValueFormat
  import opened FileSinks
  import opened MergedKeyValueIterators
  import opened SortedRuns
  import opened JavaInt

  /** The reducer, as the pairs it emits for one key and its values. */
  type Reduce<!K1, !V1, K2, V2> = (K1, seq<V1>) -> seq<(K2, V2)>

  // ------------------------------------------------------------ the buffer

  /** `computeIfAbsent(key, ...).add(value)` for every record, in put order. */
  function Collect<K, V>(s: seq<(K, V)>): (m: map<K, seq<V>>)
    ensures |s| > 0 ==> s[|s| - 1].0 in m
  {
    if |s| == 0 then map[]
    else
      var m := Collect(s[..|s| - 1]);
      var (k, v) := s[|s| - 1];
      m[k := (if k in m then m[k] else []) + [v]]
  }

  /** The values put under `k`, in put order. */
  function ValuesOf<K(==), V>(s: seq<(K, V)>, k: K): seq<V> {
    if |s| == 0 then []
    else ValuesOf(s[..|s| - 1], k) + (if s[|s| - 1].0 == k then [s[|s| - 1].1] else [])
  }

  /**
   * The buffer holds a key exactly when some record put since the last
   * flush has it, and then its list is that key's values in put order.
   */
  lemma {:induction false} CollectValues<K, V>(s: seq<(K, V)>, k: K)
    ensures k in Collect(s) <==> ValuesOf(s, k) != []
    ensures k in Collect(s) ==> Collect(s)[k] == ValuesOf(s, k)
  {
    if |s| > 0 {
      CollectValues(s[..|s| - 1], k);
    }
  }

  /** The buffer is empty exactly when nothing was put since the last flush. */
  lemma CollectEmpty<K, V>(s: seq<(K, V)>)
    ensures Collect(s) == map[] <==> s == []
  {
  }

  // --------------------------------------------------- reducing the buffer

  /** `order` lists every key of `keys` exactly once. */
  ghost predicate KeyOrder<K(!new)>(order: seq<K>, keys: set<K>) {
    && (forall i, j :: 0 <= i < j < |order| ==> order[i] != order[j])
    && (forall k :: k in keys <==> k in order)
  }

  /**
   * What the reducer emits for each key of `order` in turn (a key the buffer
   * does not hold emits nothing).
   */
  function ReduceAll<K1, V1, K2, V2>(order: seq<K1>, m: map<K1, seq<V1>>, reduce: Reduce<K1, V1, K2, V2>)
    : seq<(K2, V2)>
  {
    if |order| == 0 then []
    else
      var k := order[|order| - 1];
      ReduceAll(order[..|order| - 1], m, reduce) + (if k in m then reduce(k, m[k]) else [])
  }

  lemma {:induction false} ReduceAllAppend<K1, V1, K2, V2>(x: seq<K1>, y: seq<K1>, m: map<K1, seq<V1>>,
                                                          reduce: Reduce<K1, V1, K2, V2>)
    ensures ReduceAll(x + y, m, reduce) == ReduceAll(x, m, reduce) + ReduceAll(y, m, reduce)
  {
    if |y| == 0 {
      assert x + y == x;
    } else {
      var y0 := y[..|y| - 1];
      ReduceAllAppend(x, y0, m, reduce);
      assert (x + y)[..|x + y| - 1] == x + y0;
    }
  }

  /** Reducing the keys with `k` taken out of the middle, and `k` on its own. */
  lemma ReduceAllSplit<K1, V1, K2, V2>(a: seq<K1>, k: K1, b: seq<K1>, m: map<K1, seq<V1>>,
                                       reduce: Reduce<K1, V1, K2, V2>)
    requires k in m
    ensures multiset(ReduceAll(a + [k] + b, m, reduce))
         == multiset(ReduceAll(a + b, m, reduce)) + multiset(reduce(k, m[k]))
  {
    ReduceAllAppend(a, [k], m, reduce);
    ReduceAllAppend(a + [k], b, m, reduce);
    ReduceAllAppend(a, b, m, reduce);
    assert ReduceAll([k], m, reduce) == ReduceAll([], m, reduce) + reduce(k, m[k]);
  }

  /** Taking one key out of a key order leaves an order of the other keys. */
  lemma KeyOrderRemove<K(!new)>(o: seq<K>, j: nat, keys: set<K>)
    requires KeyOrder(o, keys) && j < |o|
    ensures KeyOrder(o[..j] + o[j + 1..], keys - {o[j]})
  {
    var a, b, k := o[..j], o[j + 1..], o[j];
    assert o == a + [k] + b;
    forall i, i2 | 0 <= i < i2 < |a + b|
      ensures (a + b)[i] != (a + b)[i2]
    {
      var p := if i < j then i else i + 1;
      var p2 := if i2 < j then i2 else i2 + 1;
      assert (a + b)[i] == o[p] && (a + b)[i2] == o[p2];
    }
    forall x
      ensures x in keys - {k} <==> x in a + b
    {
      if x in a + b {
        var i :| 0 <= i < |a + b| && (a + b)[i] == x;
        var p := if i < j then i else i + 1;
        assert o[p] == x && p != j;
      }
      if x in o && x != k {
        var p :| 0 <= p < |o| && o[p] == x;
        if p < j {
          assert (a + b)[p] == x;
        } else {
          assert (a + b)[p - 1] == x;
        }
      }
    }
  }

  /** Only the empty order lists no keys. */
  lemma KeyOrderEmpty<K(!new)>(o: seq<K>, keys: set<K>)
    requires KeyOrder(o, keys)
    ensures keys == {} <==> o == []
  {
    if o != [] {
      assert o[0] in keys;
    }
  }

  /** Reducing keys that do not include `k` does not look at `k`'s entry. */
  lemma {:induction false} ReduceAllRemove<K1, V1, K2, V2>(o: seq<K1>, m: map<K1, seq<V1>>, k: K1,
                                                          reduce: Reduce<K1, V1, K2, V2>)
    requires k !in o
    ensures ReduceAll(o, m - {k}, reduce) == ReduceAll(o, m, reduce)
  {
    if |o| > 0 {
      ReduceAllRemove(o[..|o| - 1], m, k, reduce);
      assert o[|o| - 1] != k;
    }
  }

  /** The key of a non-empty map that `ReducedBag` takes out first. */
  ghost function PickKey<K, V>(m: map<K, V>): (k: K)
    requires |m| > 0
    ensures k in m
  {
    var k :| k in m; k
  }

  /**
   * What the reducer emits for a buffer, as a bag: each key's emissions once,
   * whatever order the keys are visited in (see `ReduceAllBag`).
   */
  ghost function ReducedBag<K1, V1, K2, V2>(m: map<K1, seq<V1>>, reduce: Reduce<K1, V1, K2, V2>)
    : multiset<(K2, V2)>
    decreases |m|
  {
    if |m| == 0 then multiset{}
    else
      var k := PickKey(m);
      assert |m - {k}| < |m| by { assert (m - {k}).Keys == m.Keys - {k}; }
      ReducedBag(m - {k}, reduce) + multiset(reduce(k, m[k]))
  }

  /**
   * The map's iteration order does not matter: reducing the keys in any
   * order emits the same pairs, up to their order.
   */
  lemma {:induction false} ReduceAllBag<K1(!new), V1, K2, V2>(order: seq<K1>, m: map<K1, seq<V1>>,
                                                             reduce: Reduce<K1, V1, K2, V2>)
    requires KeyOrder(order, m.Keys)
    ensures multiset(ReduceAll(order, m, reduce)) == ReducedBag(m, reduce)
    decreases |m|
  {
    if |m| == 0 {
      KeyOrderEmpty(order, m.Keys);
    } else {
      var k := PickKey(m);
      var j :| 0 <= j < |order| && order[j] == k;
      var a, b := order[..j], order[j + 1..];
      assert order == a + [k] + b;
      ReduceAllSplit(a, k, b, m, reduce);
      KeyOrderRemove(order, j, m.Keys);
      assert (m - {k}).Keys == m.Keys - {k};
      assert k !in a + b;
      ReduceAllRemove(a + b, m, k, reduce);
      ReduceAllBag(a + b, m - {k}, reduce);
    }
  }

  /** Building the flush's key order one key at a time. */
  lemma KeyOrderSnoc<K(!new)>(o: seq<K>, done: set<K>, k: K)
    requires KeyOrder(o, done) && k !in done
    ensures KeyOrder(o + [k], done + {k})
  {
  }

  /**
   * The loop of `flushBuffer` over `buffer.entrySet()`: the reducer runs once
   * per key, in some order, with that key's values.
   */
  method ReduceBuffer<K1(==,!new), V1, K2, V2>(m: map<K1, seq<V1>>, reduce: Reduce<K1, V1, K2, V2>)
    returns (reduced: seq<(K2, V2)>, ghost order: seq<K1>)
    ensures KeyOrder(order, m.Keys)
    ensures reduced == ReduceAll(order, m, reduce)
  {
    reduced, order := [], [];
    var rest := m.Keys;
    while rest != {}
      invariant rest <= m.Keys
      invariant KeyOrder(order, m.Keys - rest)
      invariant reduced == ReduceAll(order, m, reduce)
      decreases rest
    {
      var k :| k in rest;
      KeyOrderSnoc(order, m.Keys - rest, k);
      assert m.Keys - (rest - {k}) == (m.Keys - rest) + {k};
      assert (order + [k])[..|order|] == order;
      reduced := reduced + reduce(k, m[k]);
      order := order + [k];
      rest := rest - {k};
    }
    assert m.Keys - rest == m.Keys;
  }

  // ------------------------------------------------------------- the sink

  /** What the flushes of `chunks` emitted together, whatever the iteration orders. */
  ghost function FlushedBag<K1(!new), V1, K2, V2>(chunks: seq<seq<(K1, V1)>>, reduce: Reduce<K1, V1, K2, V2>)
    : multiset<(K2, V2)>
  {
    if |chunks| == 0 then multiset{}
    else FlushedBag(chunks[..|chunks| - 1], reduce) + ReducedBag(Collect(chunks[|chunks| - 1]), reduce)
  }

  /**
   * The sink's invariant: `buffer` is the records put since the last flush
   * collected by key; each flush left one key-sorted run in its own dump,
   * and the runs hold together what the reducer emits for the flushed
   * records; the flushed records followed by the pending ones are the
   * records put.
   */
  ghost predicate AltInv<K1(!new), V1, K2(!new), V2>(
    cmp: (K2, K2) -> int, kc: Codec<K2>, vc: Codec<V2>, reduce: Reduce<K1, V1, K2, V2>,
    dumps: seq<seq<string>>, runs: seq<seq<(K2, V2)>>, chunks: seq<seq<(K1, V1)>>,
    pending: seq<(K1, V1)>, buffer: map<K1, seq<V1>>, puts: seq<(K1, V1)>)
  {
    && ValidComparator(cmp)
    && DumpsHold(dumps, runs, kc, vc)
    && AllSorted(runs, cmp)
    && |runs| == |chunks|
    && multiset(Flatten(runs)) == FlushedBag(chunks, reduce)
    && Flatten(chunks) + pending == puts
    && buffer == Collect(pending)
  }

  lemma AltPutKeeps<K1(!new), V1, K2(!new), V2>(
    cmp: (K2, K2) -> int, kc: Codec<K2>, vc: Codec<V2>, reduce: Reduce<K1, V1, K2, V2>,
    dumps: seq<seq<string>>, runs: seq<seq<(K2, V2)>>, chunks: seq<seq<(K1, V1)>>,
    pending: seq<(K1, V1)>, buffer: map<K1, seq<V1>>, puts: seq<(K1, V1)>, key: K1, value: V1)
    requires AltInv(cmp, kc, vc, reduce, dumps, runs, chunks, pending, buffer, puts)
    ensures AltInv(cmp, kc, vc, reduce, dumps, runs, chunks, pending + [(key, value)],
                   buffer[key := (if key in buffer then buffer[key] else []) + [value]], puts + [(key, value)])
  {
    assert (pending + [(key, value)])[..|pending|] == pending;
  }

  lemma AltFlushKeeps<K1(!new), V1, K2(!new), V2>(
    cmp: (K2, K2) -> int, kc: Codec<K2>, vc: Codec<V2>, reduce: Reduce<K1, V1, K2, V2>,
    dumps: seq<seq<string>>, runs: seq<seq<(K2, V2)>>, chunks: seq<seq<(K1, V1)>>,
    pending: seq<(K1, V1)>, puts: seq<(K1, V1)>, run: seq<(K2, V2)>)
    requires AltInv(cmp, kc, vc, reduce, dumps, runs, chunks, pending, Collect(pending), puts)
    requires multiset(run) == ReducedBag(Collect(pending), reduce) && SortedByKey(run, cmp)
    ensures AltInv(cmp, kc, vc, reduce, dumps + [Lines(run, kc, vc)], runs + [run],
                   chunks + [pending], [], map[], puts)
  {
    FlattenAppend(chunks, pending);
    FlattenAppend(runs, run);
    assert (chunks + [pending])[..|chunks|] == chunks;
    DumpsHoldSnoc(dumps, runs, kc, vc, run);
    forall i | 0 <= i < |runs + [run]|
      ensures SortedByKey((runs + [run])[i], cmp)
    {
      if i < |runs| {
        assert (runs + [run])[i] == runs[i];
      }
    }
  }

  /**
   * The merge `close` performs once the buffer is flushed: every put was
   * flushed; the merge fails exactly when a record the reducer emitted does
   * not read back from its dump; otherwise, with line-safe codecs, the output
   * holds exactly what the reducer emitted for the flushed records, sorted
   * by key.
   */
  method MergeReduced<K1(!new), V1, K2(!new), V2(!new)>(
    cmp: (K2, K2) -> int, kc: Codec<K2>, vc: Codec<V2>, reduce: Reduce<K1, V1, K2, V2>,
    dumps: seq<seq<string>>, ghost runs: seq<seq<(K2, V2)>>, ghost chunks: seq<seq<(K1, V1)>>,
    ghost puts: seq<(K1, V1)>)
    returns (r: Result<seq<string>>, merged: seq<(K2, V2)>)
    requires AltInv(cmp, kc, vc, reduce, dumps, runs, chunks, [], map[], puts)
    ensures Flatten(chunks) == puts
    ensures r.Ok? <==> ReadableBag(FlushedBag(chunks, reduce), kc, vc)
    ensures r.Err? ==> ReadBackFailure(r.error)
    ensures r.Ok? ==> r.value == Lines(merged, kc, vc)
    ensures LineSafe(kc, vc) ==>
              r.Ok? && multiset(merged) == FlushedBag(chunks, reduce) && SortedByKey(merged, cmp)
  {
    r, merged := MergeDumps(dumps, runs, kc, vc, cmp);
    if r.Err? {
      ReadBackWrapped(runs, kc, vc);
    }
    ReadableFlatten(runs, kc, vc);
    ReadableIsBag(Flatten(runs), kc, vc);
    if LineSafe(kc, vc) {
      ReadBackLineSafe(runs, kc, vc);
    }
    assert Flatten(chunks) + [] == Flatten(chunks);
  }

  class AltSortedFileSink<K1(==,!new), V1, K2(!new), V2(!new)> {
    const keyCodec: Codec<K2>
    const valueCodec: Codec<V2>
    const cmp: (K2, K2) -> int
    const bufferMaxSize: int
    const reduce: Reduce<K1, V1, K2, V2>
    /** Each key put since the last flush with its values in put order. */
    var buffer: map<K1, seq<V1>>
    /** Puts since construction, as a Java `int`: a flush does not reset it. */
    var curBufferSize: int
    /** The dump files, as their lines, in creation order. */
    var dumps: seq<seq<string>>
    /** The output file's lines; written by `close`. */
    var output: seq<string>
    /** Every record put, in put order. */
    ghost var puts: seq<(K1, V1)>
    /** The records put since the last flush. */
    ghost var pending: seq<(K1, V1)>
    /** The records each flush reduced. */
    ghost var chunks: seq<seq<(K1, V1)>>
    /** The key-sorted run each flush spilled, one per dump. */
    ghost var runs: seq<seq<(K2, V2)>>
    /** The records `close` wrote to the output. */
    ghost var merged: seq<(K2, V2)>

    ghost predicate Stored()
      reads this`dumps, this`runs, this`chunks, this`pending, this`buffer, this`puts
    {
      AltInv(cmp, keyCodec, valueCodec, reduce, dumps, runs, chunks, pending, buffer, puts)
    }

    ghost predicate Valid()
      reads this
    {
      Stored() && IsInt32(curBufferSize)
    }

    constructor (keyCodec: Codec<K2>, valueCodec: Codec<V2>, bufferMaxSize: int, cmp: (K2, K2) -> int,
                 reduce: Reduce<K1, V1, K2, V2>)
      requires ValidComparator(cmp)
      ensures Valid()
      ensures this.keyCodec == keyCodec && this.valueCodec == valueCodec && this.cmp == cmp
      ensures this.bufferMaxSize == bufferMaxSize && this.reduce == reduce
      ensures buffer == map[] && curBufferSize == 0 && dumps == [] && output == []
      ensures puts == [] && pending == [] && chunks == []
    {
      this.keyCodec := keyCodec;
      this.valueCodec := valueCodec;
      this.cmp := cmp;
      this.bufferMaxSize := bufferMaxSize;
      this.reduce := reduce;
      buffer, curBufferSize, dumps, output := map[], 0, [], [];
      puts, pending, chunks, runs, merged := [], [], [], [], [];
    }

    /** Replaces the buffer, the counter and the dumps by a state that satisfies the invariant. */
    method SetState(d: seq<seq<string>>, ghost r: seq<seq<(K2, V2)>>, ghost c: seq<seq<(K1, V1)>>,
                    ghost p: seq<(K1, V1)>, b: map<K1, seq<V1>>, ghost pu: seq<(K1, V1)>, n: int)
      requires AltInv(cmp, keyCodec, valueCodec, reduce, d, r, c, p, b, pu) && IsInt32(n)
      modifies this
      ensures Valid() && dumps == d && runs == r && chunks == c
      ensures pending == p && buffer == b && puts == pu
      ensures curBufferSize == n && output == old(output)
    {
      dumps, runs, chunks, pending, buffer, puts, curBufferSize := d, r, c, p, b, pu, n;
    }

    /** Appends the value to its key's list and counts the put, without flushing. */
    method Buffer(key: K1, value: V1)
      requires Valid()
      modifies this
      ensures Valid() && output == old(output)
      ensures puts == old(puts) + [(key, value)] && pending == old(pending) + [(key, value)]
      ensures dumps == old(dumps) && runs == old(runs) && chunks == old(chunks)
      ensures curBufferSize == Inc32(old(curBufferSize))
    {
      AltPutKeeps(cmp, keyCodec, valueCodec, reduce, dumps, runs, chunks, pending, buffer, puts, key, value);
      var values := if key in buffer then buffer[key] else [];
      SetState(dumps, runs, chunks, pending + [(key, value)], buffer[key := values + [value]],
               puts + [(key, value)], Inc32(curBufferSize));
    }

    /**
     * Appends the value to its key's list and counts the put; flushes once
     * the count reaches `bufferMaxSize`.
     */
    method Put(key: K1, value: V1)
      requires Valid()
      modifies this
      ensures Valid() && puts == old(puts) + [(key, value)] && output == old(output)
      ensures curBufferSize == Inc32(old(curBufferSize))
      ensures curBufferSize >= bufferMaxSize ==>
                chunks == old(chunks) + [old(pending) + [(key, value)]] && pending == []
      ensures curBufferSize < bufferMaxSize ==>
                chunks == old(chunks) && pending == old(pending) + [(key, value)]
    {
      Buffer(key, value);
      if curBufferSize >= bufferMaxSize {
        Flush();
      }
    }

    /**
     * Reduces a non-empty buffer key by key, sorts what the reducer emitted
     * by key, writes it to a new dump file and clears the buffer. An empty
     * buffer creates no dump. The put counter is left as it is.
     */
    method Flush()
      requires Valid()
      modifies this
      ensures Valid() && pending == [] && buffer == map[] && puts == old(puts)
      ensures curBufferSize == old(curBufferSize) && output == old(output)
      ensures chunks == if old(pending) == [] then old(chunks) else old(chunks) + [old(pending)]
      ensures old(pending) == [] ==> dumps == old(dumps) && runs == old(runs)
      ensures old(pending) != [] ==>
                && runs == old(runs) + [runs[|runs| - 1]]
                && dumps == old(dumps) + [Lines(runs[|runs| - 1], keyCodec, valueCodec)]
                && multiset(runs[|runs| - 1]) == ReducedBag(Collect(old(pending)), reduce)
    {
      CollectEmpty(pending);
      if |buffer| == 0 {
        return;
      }
      var reduced, order := ReduceBuffer(buffer, reduce);
      ReduceAllBag(order, buffer, reduce);
      var run := SortByKey(reduced, cmp);
      SortByKeySorted(reduced, cmp);
      AltFlushKeeps(cmp, keyCodec, valueCodec, reduce, dumps, runs, chunks, pending, puts, run);
      var dump := WriteFile(keyCodec, valueCodec, run);
      SetState(dumps + [dump], runs + [run], chunks + [pending], [], map[], puts, curBufferSize);
    }

    /** Records what `close` wrote; the invariant does not depend on it. */
    method SetOutput(out: seq<string>, ghost records: seq<(K2, V2)>)
      requires Valid()
      modifies this
      ensures Valid() && output == out && merged == records
      ensures dumps == old(dumps) && chunks == old(chunks) && pending == old(pending)
      ensures buffer == old(buffer) && puts == old(puts) && curBufferSize == old(curBufferSize)
    {
      output, merged := out, records;
    }

    /**
     * Flushes, then merges every dump into the output file. Every put has
     * then been reduced by exactly one flush. The merge fails, wrapped in a
     * RuntimeException, exactly when a record the reducer emitted does not
     * read back from its dump, and the output file is then left empty. With
     * line-safe codecs it succeeds, and the output holds exactly what the
     * reducer emitted, sorted by key.
     */
    method Close() returns (r: Result<()>)
      requires Valid()
      modifies this
      ensures Valid() && pending == [] && buffer == map[] && puts == old(puts)
      ensures chunks == if old(pending) == [] then old(chunks) else old(chunks) + [old(pending)]
      ensures Flatten(chunks) == puts
      ensures r.Ok? <==> ReadableBag(FlushedBag(chunks, reduce), keyCodec, valueCodec)
      ensures r.Err? ==> ReadBackFailure(r.error) && output == []
      ensures r.Ok? ==> output == Lines(merged, keyCodec, valueCodec)
      ensures LineSafe(keyCodec, valueCodec) ==>
                r.Ok? && multiset(merged) == FlushedBag(chunks, reduce) && SortedByKey(merged, cmp)
    {
      Flush();
      var out, records := MergeReduced(cmp, keyCodec, valueCodec, reduce, dumps, runs, chunks, puts);
      if out.Err? {
        SetOutput([], []);
        return Err(out.error);
      }
      SetOutput(out.value, records);
      return Ok(());
    }
  }

  /**
   * The put counter is never reset: once it has reached the threshold, every
   * further put flushes (as long as the counter does not wrap around).
   */
  method PutPastThreshold<K1(==,!new), V1, K2(!new), V2(!new)>(sink: AltSortedFileSink<K1, V1, K2, V2>,
                                                             key: K1, value: V1)
    requires sink.Valid() && sink.bufferMaxSize <= sink.curBufferSize < INT_MAX
    modifies sink
    ensures sink.Valid() && sink.pending == [] && sink.buffer == map[]
    ensures sink.chunks == old(sink.chunks) + [old(sink.pending) + [(key, value)]]
    ensures sink.bufferMaxSize <= sink.curBufferSize
  {
    sink.Put(key, value);
  }
}
