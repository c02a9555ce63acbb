/**
 * `SortedFileSink`: an external sort. Records are buffered; a full buffer is
 * sorted by key and spilled to a new dump file (a sorted run); `close` spills
 * what is left and merges all runs into the output file.
 */
module SortedFileSinks {
  import opened Wrappers
  import opened Ordering
  import opened KeyValueFormat
  import opened FileSinks
  import opened MergedKeyValueIterators
  import opened SortedRuns
  import opened JavaInt

  /**
   * How many records a buffer holds when it is spilled by `put`: the buffer
   * is spilled as soon as its size reaches `bufferSize`, so a size below 1
   * spills every record on its own.
   */
  function Capacity(bufferSize: int): (c: nat)
    ensures c >= 1 && (bufferSize >= 1 ==> c == bufferSize) && (bufferSize < 1 ==> c == 1)
  {
    if bufferSize < 1 then 1 else bufferSize
  }

  /**
   * The sink's invariant over its state: every spill is sorted into a run
   * kept in its own dump, no spill is larger than the capacity, and the
   * spills followed by the buffer are the records put.
   */
  ghost predicate SinkInv<K(!new), V>(cmp: (K, K) -> int, kc: Codec<K>, vc: Codec<V>, cap: nat,
                                      dumps: seq<seq<string>>, runs: seq<seq<(K, V)>>, chunks: seq<seq<(K, V)>>,
                                      buffer: seq<(K, V)>, puts: seq<(K, V)>) {
    && ValidComparator(cmp)
    && DumpsHold(dumps, runs, kc, vc)
    && RunsOf(runs, chunks, cmp)
    && Flatten(chunks) + buffer == puts
    && (forall i :: 0 <= i < |chunks| ==> 1 <= |chunks[i]| <= cap)
  }

  lemma PutKeeps<K(!new), V>(cmp: (K, K) -> int, kc: Codec<K>, vc: Codec<V>, cap: nat,
                             dumps: seq<seq<string>>, runs: seq<seq<(K, V)>>, chunks: seq<seq<(K, V)>>,
                             buffer: seq<(K, V)>, puts: seq<(K, V)>, x: (K, V))
    requires SinkInv(cmp, kc, vc, cap, dumps, runs, chunks, buffer, puts)
    ensures SinkInv(cmp, kc, vc, cap, dumps, runs, chunks, buffer + [x], puts + [x])
  {
  }

  lemma SpillKeeps<K(!new), V>(cmp: (K, K) -> int, kc: Codec<K>, vc: Codec<V>, cap: nat,
                               dumps: seq<seq<string>>, runs: seq<seq<(K, V)>>, chunks: seq<seq<(K, V)>>,
                               chunk: seq<(K, V)>, puts: seq<(K, V)>)
    requires SinkInv(cmp, kc, vc, cap, dumps, runs, chunks, chunk, puts) && 1 <= |chunk| <= cap
    ensures SinkInv(cmp, kc, vc, cap, dumps + [Lines(SortByKey(chunk, cmp), kc, vc)], runs + [SortByKey(chunk, cmp)],
                    chunks + [chunk], [], puts)
  {
    FlattenAppend(chunks, chunk);
    var chunks' := chunks + [chunk];
    forall i | 0 <= i < |chunks'|
      ensures 1 <= |chunks'[i]| <= cap
    {
      if i < |chunks| {
        assert chunks'[i] == chunks[i];
      }
    }
    DumpsHoldSnoc(dumps, runs, kc, vc, SortByKey(chunk, cmp));
    RunsOfSnoc(runs, chunks, cmp, chunk);
  }

  class SortedFileSink<K(!new), V(!new)> {
    const keyCodec: Codec<K>
    const valueCodec: Codec<V>
    const cmp: (K, K) -> int
    const bufferSize: int
    /** The records put since the last spill. */
    var buffer: seq<(K, V)>
    /** The dump files, as their lines, in creation order. */
    var dumps: seq<seq<string>>
    /** The output file's lines; written by `close`. */
    var output: seq<string>
    /** Every record put, in put order. */
    ghost var puts: seq<(K, V)>
    /** The buffer's contents at each spill, before sorting. */
    ghost var chunks: seq<seq<(K, V)>>
    /** The sorted run each spill wrote, one per dump. */
    ghost var runs: seq<seq<(K, V)>>
    /** The records `close` wrote to the output. */
    ghost var merged: seq<(K, V)>

    ghost predicate Stored()
      reads this`dumps, this`runs, this`chunks, this`buffer, this`puts
    {
      SinkInv(cmp, keyCodec, valueCodec, Capacity(bufferSize), dumps, runs, chunks, buffer, puts)
    }

    /** Between calls the buffer is below its capacity. */
    ghost predicate Valid()
      reads this`dumps, this`runs, this`chunks, this`buffer, this`puts
    {
      Stored() && |buffer| < Capacity(bufferSize)
    }

    constructor (keyCodec: Codec<K>, valueCodec: Codec<V>, bufferSize: int, cmp: (K, K) -> int)
      requires ValidComparator(cmp)
      ensures Valid()
      ensures this.keyCodec == keyCodec && this.valueCodec == valueCodec
      ensures this.bufferSize == bufferSize && this.cmp == cmp
      ensures buffer == [] && dumps == [] && output == [] && puts == [] && chunks == [] && runs == []
    {
      this.keyCodec := keyCodec;
      this.valueCodec := valueCodec;
      this.cmp := cmp;
      this.bufferSize := bufferSize;
      buffer, dumps, output := [], [], [];
      puts, chunks, runs, merged := [], [], [], [];
    }

    /** Replaces the buffer and the dumps by a state that satisfies the invariant. */
    method SetState(d: seq<seq<string>>, ghost r: seq<seq<(K, V)>>, ghost c: seq<seq<(K, V)>>,
                    b: seq<(K, V)>, ghost p: seq<(K, V)>)
      requires SinkInv(cmp, keyCodec, valueCodec, Capacity(bufferSize), d, r, c, b, p)
      modifies this
      ensures Stored() && dumps == d && runs == r && chunks == c && buffer == b && puts == p
      ensures output == old(output)
    {
      dumps, runs, chunks, buffer, puts := d, r, c, b, p;
    }

    /** Records what `close` wrote; the invariant does not depend on it. */
    method SetOutput(out: seq<string>, ghost records: seq<(K, V)>)
      requires Valid()
      modifies this
      ensures Valid() && output == out && merged == records
      ensures dumps == old(dumps) && runs == old(runs) && chunks == old(chunks)
      ensures buffer == old(buffer) && puts == old(puts)
    {
      output, merged := out, records;
    }

    /** Buffers the record and spills the buffer once its size reaches `bufferSize`. */
    method Put(key: K, value: V)
      requires Valid()
      modifies this
      ensures Valid() && puts == old(puts) + [(key, value)] && output == old(output)
      ensures old(|buffer|) + 1 >= bufferSize ==>
                chunks == old(chunks) + [old(buffer) + [(key, value)]] && buffer == []
      ensures old(|buffer|) + 1 < bufferSize ==>
                chunks == old(chunks) && buffer == old(buffer) + [(key, value)]
    {
      PutKeeps(cmp, keyCodec, valueCodec, Capacity(bufferSize), dumps, runs, chunks, buffer, puts, (key, value));
      SetState(dumps, runs, chunks, buffer + [(key, value)], puts + [(key, value)]);
      if |buffer| >= bufferSize {
        Flush();
      }
    }

    /**
     * Spills a non-empty buffer: sorts it by key, writes it to a new dump
     * file and clears it. An empty buffer creates no dump.
     */
    method Flush()
      requires Stored() && |buffer| <= Capacity(bufferSize)
      modifies this
      ensures Valid() && buffer == [] && puts == old(puts) && output == old(output)
      ensures chunks == if old(buffer) == [] then old(chunks) else old(chunks) + [old(buffer)]
      ensures runs == if old(buffer) == [] then old(runs) else old(runs) + [SortByKey(old(buffer), cmp)]
      ensures dumps == if old(buffer) == [] then old(dumps)
                       else old(dumps) + [Lines(SortByKey(old(buffer), cmp), keyCodec, valueCodec)]
    {
      if |buffer| == 0 {
        return;
      }
      ghost var chunk := buffer;
      SpillKeeps(cmp, keyCodec, valueCodec, Capacity(bufferSize), dumps, runs, chunks, chunk, puts);
      var run := SortByKey(buffer, cmp);
      var dump := WriteFile(keyCodec, valueCodec, run);
      SetState(dumps + [dump], runs + [run], chunks + [chunk], [], puts);
    }

    /**
     * Spills the buffer, then merges every dump into the output file. The
     * merge fails, wrapped in a RuntimeException, exactly when a record put
     * does not read back from its dump; the output file is then left empty.
     * With line-safe codecs it succeeds, and the output holds exactly the
     * records put, sorted by key.
     */
    method Close() returns (r: Result<()>)
      requires Valid()
      modifies this
      ensures Valid() && buffer == [] && puts == old(puts)
      ensures chunks == if old(buffer) == [] then old(chunks) else old(chunks) + [old(buffer)]
      ensures r.Ok? <==> Readable(puts, keyCodec, valueCodec)
      ensures r.Err? ==> ReadBackFailure(r.error) && output == []
      ensures r.Ok? ==> output == Lines(merged, keyCodec, valueCodec)
      ensures LineSafe(keyCodec, valueCodec) ==>
                r.Ok? && multiset(merged) == multiset(puts) && SortedByKey(merged, cmp)
    {
      Flush();
      var out, records := MergeSpills(cmp, keyCodec, valueCodec, Capacity(bufferSize), dumps, runs, chunks, puts);
      if out.Err? {
        SetOutput([], []);
        return Err(out.error);
      }
      SetOutput(out.value, records);
      return Ok(());
    }
  }

  /**
   * The merge `close` performs once the buffer is spilled. It fails exactly
   * when a record put does not read back from its dump; otherwise its
   * output holds the records read back and, with line-safe codecs, exactly
   * the records put, sorted by key.
   */
  method MergeSpills<K(!new), V(!new)>(cmp: (K, K) -> int, kc: Codec<K>, vc: Codec<V>, cap: nat,
                                       dumps: seq<seq<string>>, ghost runs: seq<seq<(K, V)>>,
                                       ghost chunks: seq<seq<(K, V)>>, ghost puts: seq<(K, V)>)
    returns (r: Result<seq<string>>, merged: seq<(K, V)>)
    requires SinkInv(cmp, kc, vc, cap, dumps, runs, chunks, [], puts)
    ensures r.Ok? <==> Readable(puts, kc, vc)
    ensures r.Err? ==> ReadBackFailure(r.error)
    ensures r.Ok? ==> r.value == Lines(merged, kc, vc)
    ensures LineSafe(kc, vc) ==> r.Ok? && multiset(merged) == multiset(puts) && SortedByKey(merged, cmp)
  {
    r, merged := MergeDumps(dumps, runs, kc, vc, cmp);
    if r.Err? {
      ReadBackWrapped(runs, kc, vc);
    }
    ClosedOutput(cmp, kc, vc, runs, chunks, puts, merged);
  }

  /** What `close` promises, from what the merge of the dumps promises. */
  lemma ClosedOutput<K(!new), V(!new)>(cmp: (K, K) -> int, kc: Codec<K>, vc: Codec<V>,
                                      runs: seq<seq<(K, V)>>, chunks: seq<seq<(K, V)>>, puts: seq<(K, V)>,
                                      merged: seq<(K, V)>)
    requires ValidComparator(cmp) && RunsOf(runs, chunks, cmp) && Flatten(chunks) + [] == puts
    requires ReadBack(runs, kc, vc).Ok? ==>
               multiset(merged) == multiset(Flatten(ReadBack(runs, kc, vc).value))
    requires ReadBack(runs, kc, vc).Ok? && AllSorted(ReadBack(runs, kc, vc).value, cmp) ==> SortedByKey(merged, cmp)
    ensures ReadBack(runs, kc, vc).Ok? <==> Readable(puts, kc, vc)
    ensures LineSafe(kc, vc) ==>
              ReadBack(runs, kc, vc).Ok? && multiset(merged) == multiset(puts) && SortedByKey(merged, cmp)
  {
    RunsOfFacts(runs, chunks, cmp);
    ReadableFlatten(runs, kc, vc);
    assert Flatten(chunks) + [] == Flatten(chunks);
    ReadableSameRecords(Flatten(runs), puts, kc, vc);
    if LineSafe(kc, vc) {
      ReadBackLineSafe(runs, kc, vc);
    }
  }

  /** The number of buffers of capacity `c` that `n` records fill, the last one possibly partly. */
  function CeilDiv(n: nat, c: nat): nat
    requires c >= 1
  {
    if n == 0 then 0 else if n <= c then 1 else 1 + CeilDiv(n - c, c)
  }

  /** That number is ceil(n / c). */
  lemma {:induction false} CeilDivIs(n: nat, c: nat)
    requires c >= 1
    ensures CeilDiv(n, c) == (n + c - 1) / c
  {
    if n == 0 {
      DivModUnique(c - 1, 0, c - 1, c);
    } else if n <= c {
      DivModUnique(n + c - 1, 1, n - 1, c);
    } else {
      CeilDivIs(n - c, c);
      var q, r := (n - 1) / c, (n - 1) % c;
      assert n + c - 1 == (q + 1) * c + r;
      DivModUnique(n + c - 1, q + 1, r, c);
    }
  }

  /** The records in `q` full buffers of capacity `c`. */
  function Filled(q: nat, c: nat): nat {
    if q == 0 then 0 else Filled(q - 1, c) + c
  }

  /** `q` full buffers and `r` records left over. */
  lemma {:induction false} CeilDivSplit(q: nat, r: nat, c: nat)
    requires c >= 1 && r < c
    ensures CeilDiv(Filled(q, c) + r, c) == if r == 0 then q else q + 1
  {
    if q > 0 {
      CeilDivSplit(q - 1, r, c);
    }
  }

  /** Puts every record into a fresh sink; the spills so far are all full. */
  method PutEach<K(!new), V(!new)>(sink: SortedFileSink<K, V>, records: seq<(K, V)>)
    requires sink.Valid() && sink.puts == [] && sink.chunks == [] && sink.buffer == []
    modifies sink
    ensures sink.Valid() && sink.puts == records
    ensures |sink.buffer| < Capacity(sink.bufferSize)
    ensures (if sink.buffer == [] then |sink.chunks| else |sink.chunks| + 1)
         == CeilDiv(|records|, Capacity(sink.bufferSize))
  {
    var c := Capacity(sink.bufferSize);
    for i := 0 to |records|
      invariant sink.Valid() && sink.puts == records[..i]
      invariant Filled(|sink.chunks|, c) + |sink.buffer| == i
    {
      assert records[..i + 1] == records[..i] + [records[i]];
      sink.Put(records[i].0, records[i].1);
    }
    assert records[..|records|] == records;
    CeilDivSplit(|sink.chunks|, |sink.buffer|, c);
  }

  /**
   * Puts every record and closes: the buffer is spilled ceil(n / bufferSize)
   * times (`CeilDivIs`; every record on its own when bufferSize is below 1),
   * and the sort fails exactly when a record does not read back.
   */
  method SortAll<K(!new), V(!new)>(kc: Codec<K>, vc: Codec<V>, bufferSize: int, cmp: (K, K) -> int,
                             records: seq<(K, V)>)
    returns (r: Result<seq<string>>, ghost merged: seq<(K, V)>, ghost spills: nat)
    requires ValidComparator(cmp)
    ensures spills == CeilDiv(|records|, Capacity(bufferSize))
    ensures r.Ok? <==> Readable(records, kc, vc)
    ensures r.Err? ==> ReadBackFailure(r.error)
    ensures r.Ok? ==> r.value == Lines(merged, kc, vc)
    ensures LineSafe(kc, vc) ==> r.Ok? && multiset(merged) == multiset(records) && SortedByKey(merged, cmp)
  {
    var sink := new SortedFileSink(kc, vc, bufferSize, cmp);
    PutEach(sink, records);
    var closed := sink.Close();
    merged, spills := sink.merged, |sink.chunks|;
    if closed.Err? {
      return Err(closed.error), merged, spills;
    }
    r := Ok(sink.output);
  }
}
