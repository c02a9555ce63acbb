/**
 * What the two sorting sinks share: sorted runs kept in temporary dump files,
 * and the final step of `close`, which reads every dump back, merges them
 * with `MergedKeyValueIterator` and writes the merged records to the output
 * file through a `FileSink`.
 */
module SortedRuns {
  import opened Wrappers
  import opened Ordering
  import opened KeyValueFormat
  import opened KeyValueFileIterators
  import opened MergedKeyValueIterators
  import opened FileSinks

  lemma {:induction false} FlattenAppend<T>(ss: seq<seq<T>>, t: seq<T>)
    ensures Flatten(ss + [t]) == Flatten(ss) + t
  {
    if |ss| == 0 {
      assert ss + [t] == [t];
    } else {
      FlattenAppend(ss[1..], t);
      assert (ss + [t])[1..] == ss[1..] + [t];
    }
  }

  /** `runs` are the spilled buffers `chunks`, each one sorted by key. */
  ghost predicate RunsOf<K, V>(runs: seq<seq<(K, V)>>, chunks: seq<seq<(K, V)>>, cmp: (K, K) -> int) {
    && |runs| == |chunks|
    && forall i {:trigger runs[i]} :: 0 <= i < |runs| ==> runs[i] == SortByKey(chunks[i], cmp)
  }

  /** Spilling one more buffer adds its sorted run. */
  lemma RunsOfSnoc<K, V>(runs: seq<seq<(K, V)>>, chunks: seq<seq<(K, V)>>, cmp: (K, K) -> int, chunk: seq<(K, V)>)
    requires RunsOf(runs, chunks, cmp)
    ensures RunsOf(runs + [SortByKey(chunk, cmp)], chunks + [chunk], cmp)
  {
    var runs', chunks' := runs + [SortByKey(chunk, cmp)], chunks + [chunk];
    forall i | 0 <= i < |runs'|
      ensures runs'[i] == SortByKey(chunks'[i], cmp)
    {
      if i < |runs| {
        assert runs'[i] == runs[i] && chunks'[i] == chunks[i];
      }
    }
  }

  /** Sorting the runs keeps their records and makes every run key-sorted. */
  lemma RunsOfFacts<K(!new), V>(runs: seq<seq<(K, V)>>, chunks: seq<seq<(K, V)>>, cmp: (K, K) -> int)
    requires ValidComparator(cmp) && RunsOf(runs, chunks, cmp)
    ensures multiset(Flatten(runs)) == multiset(Flatten(chunks))
    ensures AllSorted(runs, cmp)
  {
    forall i | 0 <= i < |runs|
      ensures SortedByKey(runs[i], cmp) && multiset(runs[i]) == multiset(chunks[i])
    {
      SortByKeySorted(chunks[i], cmp);
    }
    FlattenSameRecords(runs, chunks);
  }

  /** Sequences whose parts pairwise hold the same records hold the same records once flattened. */
  lemma {:induction false} FlattenSameRecords<T>(xs: seq<seq<T>>, ys: seq<seq<T>>)
    requires |xs| == |ys| && forall i :: 0 <= i < |xs| ==> multiset(xs[i]) == multiset(ys[i])
    ensures multiset(Flatten(xs)) == multiset(Flatten(ys))
  {
    if |xs| > 0 {
      FlattenSameRecords(xs[1..], ys[1..]);
      assert Flatten(xs) == xs[0] + Flatten(xs[1..]);
      assert Flatten(ys) == ys[0] + Flatten(ys[1..]);
    }
  }

  /** The dump files holding `runs`, one file per run, in creation order. */
  ghost predicate DumpsHold<K, V>(dumps: seq<seq<string>>, runs: seq<seq<(K, V)>>, kc: Codec<K>, vc: Codec<V>) {
    && |dumps| == |runs|
    && forall i {:trigger dumps[i]} :: 0 <= i < |runs| ==> dumps[i] == Lines(runs[i], kc, vc)
  }

  /** Writing one more run to a new dump. */
  lemma DumpsHoldSnoc<K, V>(dumps: seq<seq<string>>, runs: seq<seq<(K, V)>>, kc: Codec<K>, vc: Codec<V>,
                            run: seq<(K, V)>)
    requires DumpsHold(dumps, runs, kc, vc)
    ensures DumpsHold(dumps + [Lines(run, kc, vc)], runs + [run], kc, vc)
  {
    var dumps', runs' := dumps + [Lines(run, kc, vc)], runs + [run];
    forall i | 0 <= i < |runs'|
      ensures dumps'[i] == Lines(runs'[i], kc, vc)
    {
      if i < |runs| {
        assert dumps'[i] == dumps[i];
      }
    }
  }

  /**
   * The records read back from the dump that holds `run`: the lines
   * `readLine` returns from the written file, parsed in order. The read
   * fails exactly when a written record breaks into a line without a space.
   */
  function ReadRun<K, V>(run: seq<(K, V)>, kc: Codec<K>, vc: Codec<V>): (r: Result<seq<(K, V)>>)
    ensures r.Ok? <==> Readable(run, kc, vc)
    ensures r.Err? ==> BadLineError(r.error)
  {
    WrittenLinesParse(run, kc, vc);
    ReadAll(FileLines(Lines(run, kc, vc)), kc, vc)
  }

  /**
   * Every dump read back, in dump order, failing with the first dump that
   * does not read back.
   */
  function ReadBack<K, V>(runs: seq<seq<(K, V)>>, kc: Codec<K>, vc: Codec<V>): (r: Result<seq<seq<(K, V)>>>)
    ensures r.Ok? <==> forall i :: 0 <= i < |runs| ==> Readable(runs[i], kc, vc)
    ensures r.Ok? ==> |r.value| == |runs|
    ensures r.Ok? ==> forall i :: 0 <= i < |runs| ==> ReadRun(runs[i], kc, vc) == Ok(r.value[i])
    ensures r.Err? ==> BadLineError(r.error)
  {
    if |runs| == 0 then Ok([])
    else
      var init, last := runs[..|runs| - 1], runs[|runs| - 1];
      match ReadBack(init, kc, vc)
      case Err(e) =>
        ReadBackInit(runs);
        Err(e)
      case Ok(prev) =>
        match ReadRun(last, kc, vc)
        case Err(e) => Err(e)
        case Ok(s) =>
          ReadBackInit(runs);
          Ok(prev + [s])
  }

  lemma ReadBackInit<K, V>(runs: seq<seq<(K, V)>>)
    requires |runs| > 0
    ensures forall i :: 0 <= i < |runs| - 1 ==> runs[..|runs| - 1][i] == runs[i]
  {
  }

  /** Once a prefix of the dumps fails to read back, so do all of them, with the same error. */
  lemma {:induction false} ReadBackPrefixFails<K, V>(runs: seq<seq<(K, V)>>, j: nat, kc: Codec<K>, vc: Codec<V>)
    requires j <= |runs| && ReadBack(runs[..j], kc, vc).Err?
    ensures ReadBack(runs, kc, vc) == ReadBack(runs[..j], kc, vc)
    decreases |runs|
  {
    if j < |runs| {
      var init := runs[..|runs| - 1];
      assert init[..j] == runs[..j];
      ReadBackPrefixFails(init, j, kc, vc);
    } else {
      assert runs[..j] == runs;
    }
  }

  /** The dumps read back exactly when the records written to them all do. */
  lemma {:induction false} ReadableFlatten<K, V>(runs: seq<seq<(K, V)>>, kc: Codec<K>, vc: Codec<V>)
    ensures Readable(Flatten(runs), kc, vc) <==> forall i :: 0 <= i < |runs| ==> Readable(runs[i], kc, vc)
  {
    if |runs| > 0 {
      ReadableFlatten(runs[1..], kc, vc);
      assert Flatten(runs) == runs[0] + Flatten(runs[1..]);
      ReadableAppend(runs[0], Flatten(runs[1..]), kc, vc);
      assert forall i :: 0 < i < |runs| ==> runs[i] == runs[1..][i - 1];
    }
  }

  /** A failed read-back, wrapped by `close` in a RuntimeException. */
  lemma ReadBackWrapped<K, V>(runs: seq<seq<(K, V)>>, kc: Codec<K>, vc: Codec<V>)
    requires ReadBack(runs, kc, vc).Err?
    ensures ReadBackFailure(Wrap(ReadBack(runs, kc, vc).error))
  {
  }

  lemma ReadRunLineSafe<K(!new), V(!new)>(run: seq<(K, V)>, kc: Codec<K>, vc: Codec<V>)
    requires LineSafe(kc, vc)
    ensures ReadRun(run, kc, vc) == Ok(run)
  {
    ReadAllLines(run, kc, vc);
  }

  /** Dumps that each give back their run give back all the runs. */
  lemma {:induction false} ReadBackEach<K, V>(runs: seq<seq<(K, V)>>, kc: Codec<K>, vc: Codec<V>)
    requires forall i {:trigger ReadRun(runs[i], kc, vc)} :: 0 <= i < |runs| ==> ReadRun(runs[i], kc, vc) == Ok(runs[i])
    ensures ReadBack(runs, kc, vc) == Ok(runs)
  {
    if |runs| > 0 {
      var init, last := runs[..|runs| - 1], runs[|runs| - 1];
      assert runs == init + [last];
      forall i | 0 <= i < |init|
        ensures ReadRun(init[i], kc, vc) == Ok(init[i])
      {
        assert init[i] == runs[i];
      }
      ReadBackEach(init, kc, vc);
      assert ReadRun(last, kc, vc) == Ok(last);
    }
  }

  /** With line-safe codecs the dumps give back exactly the runs written. */
  lemma ReadBackLineSafe<K(!new), V(!new)>(runs: seq<seq<(K, V)>>, kc: Codec<K>, vc: Codec<V>)
    requires LineSafe(kc, vc)
    ensures ReadBack(runs, kc, vc) == Ok(runs)
  {
    forall i | 0 <= i < |runs|
      ensures ReadRun(runs[i], kc, vc) == Ok(runs[i])
    {
      ReadRunLineSafe(runs[i], kc, vc);
    }
    ReadBackEach(runs, kc, vc);
  }

  lemma ReadRunIs<K, V>(run: seq<(K, V)>, kc: Codec<K>, vc: Codec<V>, lines: seq<string>, r: Result<seq<(K, V)>>)
    requires lines == FileLines(Lines(run, kc, vc)) && r == ReadAll(lines[0..], kc, vc)
    ensures r == ReadRun(run, kc, vc)
  {
    assert lines[0..] == lines;
  }

  /** The next dump read back after the first `i`. */
  lemma ReadBackSnoc<K, V>(runs: seq<seq<(K, V)>>, i: nat, kc: Codec<K>, vc: Codec<V>)
    requires i < |runs| && ReadBack(runs[..i], kc, vc).Ok?
    ensures ReadBack(runs[..i + 1], kc, vc)
         == match ReadRun(runs[i], kc, vc)
            case Err(e) => Err(e)
            case Ok(s) => Ok(ReadBack(runs[..i], kc, vc).value + [s])
  {
    assert runs[..i + 1][..i] == runs[..i];
  }

  /**
   * Opens a `KeyValueFileIterator` on every dump and reads it to the end,
   * stopping at the first dump with a line that does not parse.
   */
  method ReadDumps<K, V>(dumps: seq<seq<string>>, ghost runs: seq<seq<(K, V)>>, kc: Codec<K>, vc: Codec<V>)
    returns (r: Result<seq<seq<(K, V)>>>)
    requires DumpsHold(dumps, runs, kc, vc)
    ensures r == ReadBack(runs, kc, vc)
  {
    var sources := [];
    for i := 0 to |dumps|
      invariant ReadBack(runs[..i], kc, vc) == Ok(sources)
    {
      var it := new KeyValueFileIterator(FileLines(dumps[i]), kc, vc);
      var s := it.ReadRemaining();
      ReadRunIs(runs[i], kc, vc, FileLines(dumps[i]), s);
      ReadBackSnoc(runs, i, kc, vc);
      if s.Err? {
        ReadBackPrefixFails(runs, i + 1, kc, vc);
        return Err(s.error);
      }
      sources := sources + [s.value];
    }
    assert runs[..|dumps|] == runs;
    return Ok(sources);
  }

  /**
   * The final step of `close`: the dumps read back, merged by key, and
   * written to a fresh output file. A dump that does not read back fails
   * the merge with the reader's exception wrapped in a RuntimeException;
   * otherwise the output holds every record read back, and is key-sorted
   * when every dump is.
   */
  method MergeDumps<K(!new), V>(dumps: seq<seq<string>>, ghost runs: seq<seq<(K, V)>>,
                                kc: Codec<K>, vc: Codec<V>, cmp: (K, K) -> int)
    returns (r: Result<seq<string>>, merged: seq<(K, V)>)
    requires ValidComparator(cmp) && DumpsHold(dumps, runs, kc, vc)
    ensures r.Err? <==> ReadBack(runs, kc, vc).Err?
    ensures r.Err? ==> r.error == Wrap(ReadBack(runs, kc, vc).error)
    ensures r.Ok? ==> r.value == Lines(merged, kc, vc)
    ensures r.Ok? ==> multiset(merged) == multiset(Flatten(ReadBack(runs, kc, vc).value))
    ensures r.Ok? && AllSorted(ReadBack(runs, kc, vc).value, cmp) ==> SortedByKey(merged, cmp)
  {
    var sources := ReadDumps(dumps, runs, kc, vc);
    if sources.Err? {
      return Err(Wrap(sources.error)), [];
    }
    merged := MergeAll(sources.value, cmp);
    var output := WriteFile(kc, vc, merged);
    r := Ok(output);
  }
}
