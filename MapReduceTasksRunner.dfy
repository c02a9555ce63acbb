/**
 * `MapReduceTasksRunner`: the two task bodies. A map task feeds every input
 * line to the mapper and routes what it emits through a `PartitionedFileSink`
 * over one `SortedFileSink` per reducer. A reduce task merges its input files
 * by key, groups the merged records and hands each group to the reducer,
 * whose emissions go to one output file.
 *
 * Files are their lines; a directory is a map from file name to lines.
 */
module MapReduceTasksRunner {
  import opened Wrappers
  import opened JavaInt
  import opened JavaString
  import opened Ordering
  import opened KeyValueFormat
  import opened KeyValueFileIterators
  import opened MergedKeyValueIterators
  import opened GroupedKeyValuesIterators
  import opened FileSinks
  import opened SortedFileSinks
  import opened PartitionedFileSinks

  /** A directory: file name to the file's lines. */
  type Directory = map<string, seq<string>>

  /**
   * Opening a file for a `KeyValueFileIterator`. A missing file is a
   * NoSuchFileException (an IOException carrying the path). Every file here
   * is plain text, so a name ending in ".zip" opens an archive without
   * entries, which the iterator rejects.
   */
  function OpenFile(dir: Directory, path: string): (r: Result<seq<string>>)
    ensures r.Ok? <==> path in dir && !EndsWith(path, ".zip")
    ensures r.Ok? ==> r.value == dir[path]
    ensures path !in dir ==> r == Err(IO(NO_SUCH_FILE, path))
    ensures path in dir && EndsWith(path, ".zip") ==> r == Err(IO(IO_EXCEPTION, "ZIP file is empty: " + path))
  {
    if path !in dir then Err(IO(NO_SUCH_FILE, path)) else OpenLines(path, [], dir[path])
  }

  // ------------------------------------------------------------------ map task

  /** The name of the sorted sink file a map task writes for reducer `i`. */
  function MapperOutputName(mapperId: int, i: int): string {
    "mapper-output-" + IntToString(mapperId) + "-" + IntToString(i) + ".txt"
  }

  /** What the mapper is given for one input file: (file path, line), in line order. */
  function InputPairs(path: string, lines: seq<string>): (r: seq<(string, string)>)
    ensures |r| == |lines|
    ensures forall i :: 0 <= i < |r| ==> r[i] == (path, lines[i])
  {
    if |lines| == 0 then [] else InputPairs(path, lines[..|lines| - 1]) + [(path, lines[|lines| - 1])]
  }

  /** The mapper input iterator of one file: its pending line is `lines[pos]`. */
  class InputIterator {
    const path: string
    const lines: seq<string>
    var pos: nat

    ghost predicate Valid()
      reads this
    {
      pos <= |lines|
    }

    constructor (path: string, lines: seq<string>)
      ensures Valid() && this.path == path && this.lines == lines && pos == 0
    {
      this.path := path;
      this.lines := lines;
      pos := 0;
    }

    function HasNext(): (b: bool)
      reads this
      requires Valid()
      ensures b <==> pos < |lines|
    {
      pos < |lines|
    }

    /** The pending line with the file's path; past the end, a RuntimeException. */
    method Next() returns (r: Result<(string, string)>)
      requires Valid()
      modifies this
      ensures Valid()
      ensures r.Err? <==> old(pos) == |lines|
      ensures r.Err? ==> r.error == Runtime("") && pos == old(pos)
      ensures r.Ok? ==> r.value == (path, lines[old(pos)]) && pos == old(pos) + 1
    {
      if !HasNext() {
        return Err(Runtime(""));
      }
      r := Ok((path, lines[pos]));
      pos := pos + 1;
    }
  }

  /** A mapper that reads its iterator to the end sees every line, in order. */
  method ReadInput(path: string, lines: seq<string>) returns (pairs: seq<(string, string)>)
    ensures pairs == InputPairs(path, lines)
  {
    var it := new InputIterator(path, lines);
    pairs := [];
    while it.HasNext()
      invariant it.Valid() && it.path == path && it.lines == lines
      invariant pairs == InputPairs(path, lines[..it.pos])
      decreases |lines| - it.pos
    {
      var r := it.Next();
      assert lines[..it.pos][..it.pos - 1] == lines[..it.pos - 1];
      pairs := pairs + [r.value];
    }
    assert lines[..it.pos] == lines;
  }

  /** The mapper: what it emits for one file's (path, line) pairs. */
  type Mapper<!K, !V> = seq<(string, string)> -> seq<(K, V)>

  /** Everything the mapper emits over the input files, file after file. */
  function MapAll<K, V>(files: seq<(string, seq<string>)>, mapper: Mapper<K, V>): seq<(K, V)> {
    if |files| == 0 then []
    else MapAll(files[..|files| - 1], mapper) + mapper(InputPairs(files[|files| - 1].0, files[|files| - 1].1))
  }

  /** Every record's route names one of the `n` sinks. */
  predicate Routable<K, V>(hasher: Hasher<K>, n: int, pairs: seq<(K, V)>)
    requires n >= 1
  {
    forall j :: 0 <= j < |pairs| ==> 0 <= Route(hasher, n, pairs[j].0) < n
  }

  /** With at most 2^30 sinks every record is routable. */
  lemma RoutableUpTo2p30<K, V>(hasher: Hasher<K>, n: int, pairs: seq<(K, V)>)
    requires 1 <= n <= 0x4000_0000
    ensures Routable(hasher, n, pairs)
  {
    forall j | 0 <= j < |pairs|
      ensures 0 <= Route(hasher, n, pairs[j].0) < n
    {
      SinkIndexInRange(Wrap32(hasher(pairs[j].0)), n);
    }
  }

  /**
   * The mapper's emit callback, over one batch: every pair is put through the
   * partitioned sink; the first failing put ends the batch.
   */
  method PutEmitted<K(!new), V(!new)>(part: PartitionedFileSink<K, V>, pairs: seq<(K, V)>)
    returns (r: Result<()>)
    requires part.Valid()
    modifies part, part.Objects()
    ensures part.Valid()
    ensures r.Ok? <==> Routable(part.hasher, |part.sinks|, pairs)
    ensures r.Ok? ==> part.puts == old(part.puts) + pairs
    ensures r.Err? ==> r.error == IndexOutOfBounds
  {
    ghost var before, n := part.puts, |part.sinks|;
    for i := 0 to |pairs|
      invariant part.Valid()
      invariant part.puts == before + pairs[..i]
      invariant Routable(part.hasher, |part.sinks|, pairs[..i])
    {
      ghost var route := Route(part.hasher, |part.sinks|, pairs[i].0);
      var put := part.Put(pairs[i].0, pairs[i].1);
      if put.Err? {
        assert !(0 <= route < n);
        return put;
      }
      assert pairs[..i + 1] == pairs[..i] + [pairs[i]];
    }
    assert pairs[..|pairs|] == pairs;
    return Ok(());
  }

  lemma {:induction false} RoutableAppend<K, V>(hasher: Hasher<K>, n: int, a: seq<(K, V)>, b: seq<(K, V)>)
    requires n >= 1
    ensures Routable(hasher, n, a + b) <==> Routable(hasher, n, a) && Routable(hasher, n, b)
  {
    if Routable(hasher, n, a) && Routable(hasher, n, b) {
      forall j | 0 <= j < |a + b|
        ensures 0 <= Route(hasher, n, (a + b)[j].0) < n
      {
        if j >= |a| {
          assert (a + b)[j] == b[j - |a|];
        }
      }
    }
    if Routable(hasher, n, a + b) {
      forall j | 0 <= j < |a|
        ensures 0 <= Route(hasher, n, a[j].0) < n
      {
        assert (a + b)[j] == a[j];
      }
      forall j | 0 <= j < |b|
        ensures 0 <= Route(hasher, n, b[j].0) < n
      {
        assert (a + b)[|a| + j] == b[j];
      }
    }
  }

  /** The emissions over the first files come before those over the rest. */
  lemma {:induction false} MapAllAppend<K, V>(a: seq<(string, seq<string>)>, b: seq<(string, seq<string>)>,
                                               mapper: Mapper<K, V>)
    ensures MapAll(a + b, mapper) == MapAll(a, mapper) + MapAll(b, mapper)
  {
    if |b| == 0 {
      assert a + b == a;
    } else {
      var init := b[..|b| - 1];
      MapAllAppend(a, init, mapper);
      assert (a + b)[..|a + b| - 1] == a + init;
    }
  }

  /**
   * A map task's input files, read in order: a missing file is the
   * NoSuchFileException of opening it, and a file whose emissions do not all
   * route to a sink ends the task with an IndexOutOfBoundsException. On
   * success, every file with its lines.
   */
  function MapOutcome<K, V>(dir: Directory, paths: seq<string>, hasher: Hasher<K>, n: int, mapper: Mapper<K, V>)
    : Result<seq<(string, seq<string>)>>
    requires n >= 1
  {
    if |paths| == 0 then Ok([])
    else
      match MapOutcome(dir, paths[..|paths| - 1], hasher, n, mapper)
      case Err(e) => Err(e)
      case Ok(files) =>
        var path := paths[|paths| - 1];
        if path !in dir then Err(IO(NO_SUCH_FILE, path))
        else if !Routable(hasher, n, mapper(InputPairs(path, dir[path]))) then Err(IndexOutOfBounds)
        else Ok(files + [(path, dir[path])])
  }

  /** A failure while reading the first files is the failure of the whole task. */
  lemma {:induction false} MapOutcomePrefix<K, V>(dir: Directory, paths: seq<string>, hasher: Hasher<K>, n: int,
                                                  mapper: Mapper<K, V>, i: nat)
    requires n >= 1 && i <= |paths| && MapOutcome(dir, paths[..i], hasher, n, mapper).Err?
    ensures MapOutcome(dir, paths, hasher, n, mapper) == MapOutcome(dir, paths[..i], hasher, n, mapper)
    decreases |paths|
  {
    if i < |paths| {
      var init := paths[..|paths| - 1];
      assert init[..i] == paths[..i];
      MapOutcomePrefix(dir, init, hasher, n, mapper, i);
    } else {
      assert paths[..i] == paths;
    }
  }

  /**
   * A successful task read every path, in order, and everything the mapper
   * emitted routes to a sink.
   */
  lemma {:induction false} MapOutcomeOk<K, V>(dir: Directory, paths: seq<string>, hasher: Hasher<K>, n: int,
                                              mapper: Mapper<K, V>)
    requires n >= 1 && MapOutcome(dir, paths, hasher, n, mapper).Ok?
    ensures var files := MapOutcome(dir, paths, hasher, n, mapper).value;
            && |files| == |paths|
            && (forall i :: 0 <= i < |paths| ==> paths[i] in dir && files[i] == (paths[i], dir[paths[i]]))
            && Routable(hasher, n, MapAll(files, mapper))
  {
    if |paths| > 0 {
      var init, path := paths[..|paths| - 1], paths[|paths| - 1];
      MapOutcomeOk(dir, init, hasher, n, mapper);
      var files := MapOutcome(dir, init, hasher, n, mapper).value;
      var all := files + [(path, dir[path])];
      assert all[..|all| - 1] == files;
      RoutableAppend(hasher, n, MapAll(files, mapper), mapper(InputPairs(path, dir[path])));
      forall i | 0 <= i < |paths|
        ensures paths[i] in dir && all[i] == (paths[i], dir[paths[i]])
      {
        if i < |init| {
          assert paths[i] == init[i];
        }
      }
    }
  }

  /** With every input present and at most 2^30 sinks, the map task reads all of it. */
  lemma {:induction false} MapOutcomeSucceeds<K, V>(dir: Directory, paths: seq<string>, hasher: Hasher<K>, n: int,
                                                    mapper: Mapper<K, V>)
    requires 1 <= n <= 0x4000_0000
    requires forall i :: 0 <= i < |paths| ==> paths[i] in dir
    ensures MapOutcome(dir, paths, hasher, n, mapper).Ok?
  {
    if |paths| > 0 {
      var init, path := paths[..|paths| - 1], paths[|paths| - 1];
      assert forall i :: 0 <= i < |init| ==> init[i] == paths[i];
      MapOutcomeSucceeds(dir, init, hasher, n, mapper);
      RoutableUpTo2p30(hasher, n, mapper(InputPairs(path, dir[path])));
    }
  }

  /**
   * Once a partitioned sink over distinct sinks that started empty is closed,
   * sink `i` has merged exactly the records routed to it.
   */
  lemma ClosedShares<K(!new), V(!new)>(part: PartitionedFileSink<K, V>, puts: seq<(K, V)>)
    requires part.Valid() && Distinct(part.sinks) && part.puts == puts
    requires forall i :: 0 <= i < |part.sinks| ==> part.initial[i] == [] && Closed(part.sinks[i])
    ensures forall i :: 0 <= i < |part.sinks| ==>
              var s := part.sinks[i];
              LineSafe(s.keyCodec, s.valueCodec) ==>
                && SortedByKey(s.merged, s.cmp)
                && multiset(s.merged) == multiset(Routed(puts, Destination(part.hasher, |part.sinks|), i))
  {
    forall i | 0 <= i < |part.sinks|
      ensures part.sinks[i].puts == Routed(puts, Destination(part.hasher, |part.sinks|), i)
    {
      assert part.initial[i] + Routed(puts, Destination(part.hasher, |part.sinks|), i)
          == Routed(puts, Destination(part.hasher, |part.sinks|), i);
    }
  }

  /**
   * The records put through a partitioned sink over distinct sinks that
   * started empty all read back exactly when every sink's records do.
   */
  lemma SharesReadable<K(!new), V(!new)>(part: PartitionedFileSink<K, V>, puts: seq<(K, V)>, kc: Codec<K>, vc: Codec<V>)
    requires part.Valid() && Distinct(part.sinks) && part.puts == puts
    requires forall i :: 0 <= i < |part.sinks| ==>
               part.initial[i] == [] && part.sinks[i].keyCodec == kc && part.sinks[i].valueCodec == vc
    requires Routable(part.hasher, |part.sinks|, puts)
    ensures Readable(puts, kc, vc) <==>
              forall i :: 0 <= i < |part.sinks| ==>
                Readable(part.sinks[i].puts, part.sinks[i].keyCodec, part.sinks[i].valueCodec)
  {
    var n := |part.sinks|;
    var dest := Destination(part.hasher, n);
    forall p | 0 <= p < |puts|
      ensures 0 <= dest(puts[p].0) < n
    {
      assert dest(puts[p].0) == Route(part.hasher, n, puts[p].0);
    }
    ReadableShares(puts, dest, n, kc, vc);
    if Readable(puts, kc, vc) {
      forall i | 0 <= i < n
        ensures Readable(part.sinks[i].puts, part.sinks[i].keyCodec, part.sinks[i].valueCodec)
      {
        assert part.initial[i] + Routed(puts, dest, i) == Routed(puts, dest, i);
      }
    } else {
      var i :| 0 <= i < n && !Readable(Routed(puts, dest, i), kc, vc);
      assert part.initial[i] + Routed(puts, dest, i) == Routed(puts, dest, i);
      assert !Readable(part.sinks[i].puts, part.sinks[i].keyCodec, part.sinks[i].valueCodec);
    }
  }

  /** `reducersCount` fresh sorted sinks, all empty, and their file names. */
  method NewSortedSinks<K(!new), V(!new)>(mapperId: int, reducersCount: int, sorterRecords: int,
                                          kc: Codec<K>, vc: Codec<V>, cmp: (K, K) -> int)
    returns (sinks: seq<SortedFileSink<K, V>>, names: seq<string>)
    requires ValidComparator(cmp)
    ensures |sinks| == |names| == if reducersCount > 0 then reducersCount else 0
    ensures Distinct(sinks)
    ensures forall i :: 0 <= i < |sinks| ==> names[i] == MapperOutputName(mapperId, i)
    ensures forall i :: 0 <= i < |sinks| ==> fresh(sinks[i]) && sinks[i].Valid() && sinks[i].puts == []
    ensures forall i :: 0 <= i < |sinks| ==>
              && sinks[i].keyCodec == kc && sinks[i].valueCodec == vc && sinks[i].cmp == cmp
              && sinks[i].bufferSize == sorterRecords
  {
    sinks := [];
    var count := if reducersCount > 0 then reducersCount else 0;
    for i := 0 to count
      invariant |sinks| == i && Distinct(sinks)
      invariant forall j :: 0 <= j < i ==> fresh(sinks[j])
      invariant AllEmpty(sinks, kc, vc, cmp, sorterRecords)
    {
      var sink := new SortedFileSink(kc, vc, sorterRecords, cmp);
      assert forall j :: 0 <= j < i ==> sinks[j] != sink;
      AllEmptySnoc(sinks, sink, kc, vc, cmp, sorterRecords);
      sinks := sinks + [sink];
    }
    names := seq(count, i => MapperOutputName(mapperId, i));
    forall j | 0 <= j < |sinks|
      ensures sinks[j].Valid()
    {
      EmptyIsValid(sinks[j]);
    }
  }

  /** Sorted sinks nothing has been put into, all set up alike. */
  ghost predicate AllEmpty<K(!new), V(!new)>(sinks: seq<SortedFileSink<K, V>>, kc: Codec<K>, vc: Codec<V>,
                                             cmp: (K, K) -> int, bufferSize: int)
    reads set j | 0 <= j < |sinks| :: sinks[j]
  {
    forall j :: 0 <= j < |sinks| ==>
      && Empty(sinks[j])
      && sinks[j].keyCodec == kc && sinks[j].valueCodec == vc && sinks[j].cmp == cmp
      && sinks[j].bufferSize == bufferSize
  }

  lemma AllEmptySnoc<K(!new), V(!new)>(sinks: seq<SortedFileSink<K, V>>, sink: SortedFileSink<K, V>,
                                       kc: Codec<K>, vc: Codec<V>, cmp: (K, K) -> int, bufferSize: int)
    requires AllEmpty(sinks, kc, vc, cmp, bufferSize) && Empty(sink)
    requires sink.keyCodec == kc && sink.valueCodec == vc && sink.cmp == cmp && sink.bufferSize == bufferSize
    ensures AllEmpty(sinks + [sink], kc, vc, cmp, bufferSize)
  {
    var s' := sinks + [sink];
    forall j | 0 <= j < |s'|
      ensures Empty(s'[j])
    {
      if j < |sinks| {
        assert s'[j] == sinks[j];
      }
    }
  }

  /** A sorted sink nothing has been put into. */
  ghost predicate Empty<K(!new), V(!new)>(s: SortedFileSink<K, V>)
    reads s
  {
    && ValidComparator(s.cmp)
    && s.buffer == [] && s.dumps == [] && s.puts == [] && s.chunks == [] && s.runs == []
  }

  lemma EmptyIsValid<K(!new), V(!new)>(s: SortedFileSink<K, V>)
    requires Empty(s)
    ensures s.Valid() && s.puts == []
  {
    assert Flatten<(K, V)>([]) == [];
  }

  /**
   * The loop over the input files: each is opened, the mapper reads it and
   * what it emits is put through the partitioned sink, until something fails.
   */
  method MapFiles<K(!new), V(!new)>(part: PartitionedFileSink<K, V>, dir: Directory, paths: seq<string>,
                                    mapper: Mapper<K, V>)
    returns (r: Result<()>, ghost files: seq<(string, seq<string>)>)
    requires part.Valid() && part.puts == []
    modifies part, part.Objects()
    ensures part.Valid()
    ensures r.Ok? <==> MapOutcome(dir, paths, part.hasher, |part.sinks|, mapper).Ok?
    ensures r.Err? ==> r.error == MapOutcome(dir, paths, part.hasher, |part.sinks|, mapper).error
    ensures r.Ok? ==> files == MapOutcome(dir, paths, part.hasher, |part.sinks|, mapper).value
    ensures r.Ok? ==> part.puts == MapAll(files, mapper)
  {
    ghost var hasher, n := part.hasher, |part.sinks|;
    files := [];
    for f := 0 to |paths|
      invariant part.Valid() && part.puts == MapAll(files, mapper)
      invariant MapOutcome(dir, paths[..f], hasher, n, mapper) == Ok(files)
    {
      assert paths[..f + 1][..f] == paths[..f];
      var path := paths[f];
      if path !in dir {
        MapOutcomePrefix(dir, paths, hasher, n, mapper, f + 1);
        return Err(IO(NO_SUCH_FILE, path)), files;
      }
      var pairs := ReadInput(path, dir[path]);
      var put := PutEmitted(part, mapper(pairs));
      if put.Err? {
        MapOutcomePrefix(dir, paths, hasher, n, mapper, f + 1);
        return put, files;
      }
      assert (files + [(path, dir[path])])[..|files|] == files;
      files := files + [(path, dir[path])];
    }
    assert paths[..|paths|] == paths;
    return Ok(()), files;
  }

  /**
   * A map task succeeds: every input file is read and what the mapper
   * emitted routes to a sink, and then every emitted record reads back from
   * the sorted sinks' dumps when they are closed.
   */
  ghost predicate MapTaskOk<K, V>(dir: Directory, paths: seq<string>, hasher: Hasher<K>, n: int,
                                  mapper: Mapper<K, V>, kc: Codec<K>, vc: Codec<V>)
    requires n >= 1
  {
    && MapOutcome(dir, paths, hasher, n, mapper).Ok?
    && Readable(MapAll(MapOutcome(dir, paths, hasher, n, mapper).value, mapper), kc, vc)
  }

  /**
   * With every input present and at most 2^30 sinks, the map task succeeds
   * exactly when what the mapper emitted reads back, which line-safe codecs
   * guarantee.
   */
  lemma MapTaskSucceeds<K(!new), V(!new)>(dir: Directory, paths: seq<string>, hasher: Hasher<K>, n: int,
                                          mapper: Mapper<K, V>, kc: Codec<K>, vc: Codec<V>)
    requires 1 <= n <= 0x4000_0000
    requires forall i :: 0 <= i < |paths| ==> paths[i] in dir
    ensures MapOutcome(dir, paths, hasher, n, mapper).Ok?
    ensures MapTaskOk(dir, paths, hasher, n, mapper, kc, vc)
        <==> Readable(MapAll(MapOutcome(dir, paths, hasher, n, mapper).value, mapper), kc, vc)
    ensures LineSafe(kc, vc) ==> MapTaskOk(dir, paths, hasher, n, mapper, kc, vc)
  {
    MapOutcomeSucceeds(dir, paths, hasher, n, mapper);
    if LineSafe(kc, vc) {
      LineSafeReadsBack(MapAll(MapOutcome(dir, paths, hasher, n, mapper).value, mapper), kc, vc);
    }
  }

  /**
   * `executeMapperTask`. With no reducer the partitioned sink rejects its
   * empty sink list. Otherwise the input files are read in order, and the
   * task fails at a missing file or at a record that routes to no sink
   * (possible only above 2^30 reducers); after that, closing the sinks fails
   * when an emitted record does not read back from a dump. On success file
   * `i` is named "mapper-output-{mapperId}-{i}.txt" and its lines are those
   * of the records merged for reducer `i`, which with line-safe codecs are
   * the records routed to it, sorted by key.
   */
  method ExecuteMapperTask<K(!new), V(!new)>(dir: Directory, paths: seq<string>, mapperId: int,
                                             reducersCount: int, sorterRecords: int,
                                             kc: Codec<K>, vc: Codec<V>, cmp: (K, K) -> int,
                                             hasher: Hasher<K>, mapper: Mapper<K, V>)
    returns (r: Result<seq<(string, seq<string>)>>, ghost merged: seq<seq<(K, V)>>)
    requires ValidComparator(cmp) && IsInt32(reducersCount)
    ensures reducersCount <= 0 ==> r == Err(IllegalArgument("Sink list cannot be null or empty."))
    ensures reducersCount > 0 ==> (r.Ok? <==> MapTaskOk(dir, paths, hasher, reducersCount, mapper, kc, vc))
    ensures reducersCount > 0 && MapOutcome(dir, paths, hasher, reducersCount, mapper).Err? ==>
              r == Err(MapOutcome(dir, paths, hasher, reducersCount, mapper).error)
    ensures reducersCount > 0 && MapOutcome(dir, paths, hasher, reducersCount, mapper).Ok? && r.Err? ==>
              ReadBackFailure(r.error)
    ensures r.Ok? ==> |r.value| == |merged| == reducersCount
    ensures r.Ok? ==> forall i :: 0 <= i < reducersCount ==>
              && r.value[i].0 == MapperOutputName(mapperId, i)
              && r.value[i].1 == FileLines(Lines(merged[i], kc, vc))
    ensures r.Ok? && LineSafe(kc, vc) ==> forall i :: 0 <= i < reducersCount ==>
              var files := MapOutcome(dir, paths, hasher, reducersCount, mapper).value;
              && SortedByKey(merged[i], cmp)
              && multiset(merged[i]) == multiset(Routed(MapAll(files, mapper), Destination(hasher, reducersCount), i))
  {
    var sinks, names := NewSortedSinks(mapperId, reducersCount, sorterRecords, kc, vc, cmp);
    var created := NewPartitionedFileSink(sinks, hasher);
    if created.Err? {
      return Err(created.error), [];
    }
    var part := created.value;
    var mapped, files := MapFiles(part, dir, paths, mapper);
    if mapped.Err? {
      return Err(mapped.error), [];
    }
    MapOutcomeOk(dir, paths, hasher, reducersCount, mapper);
    r, merged := CloseOutputs(part, names, MapAll(files, mapper), kc, vc);
  }

  /**
   * The end of a map task: every sorted sink closed. Closing fails exactly
   * when a record put does not read back from a dump. Otherwise each output
   * file is named after its reducer and holds the lines of the records
   * merged for its share.
   */
  method CloseOutputs<K(!new), V(!new)>(part: PartitionedFileSink<K, V>, names: seq<string>, ghost puts: seq<(K, V)>,
                                        ghost kc: Codec<K>, ghost vc: Codec<V>)
    returns (r: Result<seq<(string, seq<string>)>>, ghost merged: seq<seq<(K, V)>>)
    requires part.Valid() && Distinct(part.sinks) && part.puts == puts && |names| == |part.sinks|
    requires forall i :: 0 <= i < |part.sinks| ==>
               part.initial[i] == [] && part.sinks[i].keyCodec == kc && part.sinks[i].valueCodec == vc
    requires Routable(part.hasher, |part.sinks|, puts)
    modifies part.Objects()
    ensures r.Ok? <==> Readable(puts, kc, vc)
    ensures r.Err? ==> ReadBackFailure(r.error)
    ensures r.Ok? ==> |r.value| == |merged| == |part.sinks|
    ensures r.Ok? ==> forall i :: 0 <= i < |part.sinks| ==>
              r.value[i] == (names[i], FileLines(Lines(merged[i], kc, vc)))
    ensures r.Ok? && LineSafe(kc, vc) ==> forall i :: 0 <= i < |part.sinks| ==>
              && SortedByKey(merged[i], part.sinks[i].cmp)
              && multiset(merged[i]) == multiset(Routed(puts, Destination(part.hasher, |part.sinks|), i))
  {
    var closed := part.Close();
    SharesReadable(part, puts, kc, vc);
    if closed.Err? {
      return Err(closed.error), [];
    }
    ClosedShares(part, puts);
    var sinks := part.sinks;
    var outputs := seq(|sinks|, i requires 0 <= i < |sinks| reads sinks => (names[i], FileLines(sinks[i].output)));
    merged := seq(|sinks|, i requires 0 <= i < |sinks| reads sinks => sinks[i].merged);
    r := Ok(outputs);
  }

  // --------------------------------------------------------------- reduce task

  /** The name of the output file of reduce task `reducerId`. */
  function ReducerOutputName(reducerId: int): string {
    "output-" + IntToString(reducerId) + ".txt"
  }

  /** The files a reduce task opens, in order; the first that fails to open ends it. */
  function OpenAll(dir: Directory, paths: seq<string>): (r: Result<seq<seq<string>>>)
    ensures r.Ok? <==> forall i :: 0 <= i < |paths| ==> OpenFile(dir, paths[i]).Ok?
    ensures r.Ok? ==> |r.value| == |paths| && forall i :: 0 <= i < |paths| ==> r.value[i] == dir[paths[i]]
  {
    if |paths| == 0 then Ok([])
    else
      var init, last := paths[..|paths| - 1], paths[|paths| - 1];
      match OpenAll(dir, init)
      case Err(e) =>
        assert exists i :: 0 <= i < |init| && OpenFile(dir, init[i]).Err?;
        Err(e)
      case Ok(files) =>
        match OpenFile(dir, last)
        case Err(e) => Err(e)
        case Ok(lines) => Ok(files + [lines])
  }

  /** Every opened file parsed to its records; the first malformed line ends it. */
  function ParseAll<K, V>(files: seq<seq<string>>, kc: Codec<K>, vc: Codec<V>)
    : (r: Result<seq<seq<(K, V)>>>)
    ensures r.Ok? ==> |r.value| == |files|
  {
    if |files| == 0 then Ok([])
    else
      var init, last := files[..|files| - 1], files[|files| - 1];
      match ParseAll(init, kc, vc)
      case Err(e) => Err(e)
      case Ok(sources) =>
        match ReadAll(last, kc, vc)
        case Err(e) => Err(e)
        case Ok(records) => Ok(sources + [records])
  }

  /** The files parse exactly when each of them does, and then each to its own records. */
  lemma ParseAllEach<K, V>(files: seq<seq<string>>, kc: Codec<K>, vc: Codec<V>)
    ensures ParseAll(files, kc, vc).Ok? <==> forall i :: 0 <= i < |files| ==> ReadAll(files[i], kc, vc).Ok?
    ensures ParseAll(files, kc, vc).Ok? ==>
              forall i :: 0 <= i < |files| ==> ReadAll(files[i], kc, vc) == Ok(ParseAll(files, kc, vc).value[i])
  {
    if ParseAll(files, kc, vc).Ok? {
      ParseAllValues(files, kc, vc);
    } else {
      ParseAllFails(files, kc, vc);
    }
  }

  lemma {:induction false} ParseAllValues<K, V>(files: seq<seq<string>>, kc: Codec<K>, vc: Codec<V>)
    requires ParseAll(files, kc, vc).Ok?
    ensures forall i :: 0 <= i < |files| ==> ReadAll(files[i], kc, vc) == Ok(ParseAll(files, kc, vc).value[i])
  {
    if |files| > 0 {
      var init, last := files[..|files| - 1], files[|files| - 1];
      var pre, rec := ParseAllSnoc(files, kc, vc);
      ParseAllValues(init, kc, vc);
      var all := ParseAll(files, kc, vc).value;
      forall i | 0 <= i < |files|
        ensures ReadAll(files[i], kc, vc) == Ok(all[i])
      {
        if i < |init| {
          assert files[i] == init[i] && all[i] == pre[i];
        } else {
          assert files[i] == last && all[i] == rec;
        }
      }
    }
  }

  /** A successful parse of several files is the parse of all but the last, followed by the last one's records. */
  lemma ParseAllSnoc<K, V>(files: seq<seq<string>>, kc: Codec<K>, vc: Codec<V>)
    returns (pre: seq<seq<(K, V)>>, rec: seq<(K, V)>)
    requires |files| > 0 && ParseAll(files, kc, vc).Ok?
    ensures ParseAll(files[..|files| - 1], kc, vc) == Ok(pre) && |pre| == |files| - 1
    ensures ReadAll(files[|files| - 1], kc, vc) == Ok(rec)
    ensures ParseAll(files, kc, vc).value == pre + [rec]
  {
    pre := ParseAll(files[..|files| - 1], kc, vc).value;
    rec := ReadAll(files[|files| - 1], kc, vc).value;
  }

  lemma {:induction false} ParseAllFails<K, V>(files: seq<seq<string>>, kc: Codec<K>, vc: Codec<V>)
    requires ParseAll(files, kc, vc).Err?
    ensures exists j :: 0 <= j < |files| && ReadAll(files[j], kc, vc).Err?
  {
    var init := files[..|files| - 1];
    if ParseAll(init, kc, vc).Err? {
      ParseAllFails(init, kc, vc);
      var j :| 0 <= j < |init| && ReadAll(init[j], kc, vc).Err?;
      assert files[j] == init[j];
    } else {
      assert ReadAll(files[|files| - 1], kc, vc).Err?;
    }
  }

  /**
   * The records a reduce task reads from its input files: every file is
   * opened before any line is parsed, so a file that cannot be opened wins
   * over a malformed line.
   */
  function LoadInputs<K, V>(dir: Directory, paths: seq<string>, kc: Codec<K>, vc: Codec<V>)
    : Result<seq<seq<(K, V)>>>
  {
    match OpenAll(dir, paths)
    case Err(e) => Err(e)
    case Ok(files) => ParseAll(files, kc, vc)
  }

  /** Opens a `KeyValueFileIterator` source per path, in order. */
  method OpenInputs(dir: Directory, paths: seq<string>) returns (r: Result<seq<seq<string>>>)
    ensures r == OpenAll(dir, paths)
  {
    var files: seq<seq<string>> := [];
    for i := 0 to |paths|
      invariant OpenAll(dir, paths[..i]) == Ok(files)
    {
      assert paths[..i + 1][..i] == paths[..i];
      var file := OpenFile(dir, paths[i]);
      if file.Err? {
        OpenAllPrefix(dir, paths, i + 1);
        return Err(file.error);
      }
      files := files + [file.value];
    }
    assert paths[..|paths|] == paths;
    return Ok(files);
  }

  /** A path that fails to open fails every longer list of paths at the same place. */
  lemma {:induction false} OpenAllPrefix(dir: Directory, paths: seq<string>, i: nat)
    requires i <= |paths| && OpenAll(dir, paths[..i]).Err?
    ensures OpenAll(dir, paths) == OpenAll(dir, paths[..i])
    decreases |paths|
  {
    if i < |paths| {
      var init := paths[..|paths| - 1];
      assert init[..i] == paths[..i];
      OpenAllPrefix(dir, init, i);
    } else {
      assert paths[..i] == paths;
    }
  }

  /** The first path that cannot be opened decides the error. */
  lemma OpenAllFirstError(dir: Directory, paths: seq<string>, i: nat)
    requires i < |paths| && OpenFile(dir, paths[i]).Err?
    requires forall j :: 0 <= j < i ==> OpenFile(dir, paths[j]).Ok?
    ensures OpenAll(dir, paths) == Err(OpenFile(dir, paths[i]).error)
  {
    var front := paths[..i + 1];
    assert front[..i] == paths[..i];
    assert OpenAll(dir, front[..i]).Ok?;
    OpenAllPrefix(dir, paths, i + 1);
  }

  /** Reads every opened file to its end with a `KeyValueFileIterator`. */
  method ParseInputs<K, V>(files: seq<seq<string>>, kc: Codec<K>, vc: Codec<V>)
    returns (r: Result<seq<seq<(K, V)>>>)
    ensures r == ParseAll(files, kc, vc)
  {
    var sources: seq<seq<(K, V)>> := [];
    for i := 0 to |files|
      invariant ParseAll(files[..i], kc, vc) == Ok(sources)
    {
      assert files[..i + 1][..i] == files[..i];
      var it := new KeyValueFileIterator(files[i], kc, vc);
      var records := it.ReadRemaining();
      assert files[i][0..] == files[i];
      if records.Err? {
        ParseAllPrefix(files, i + 1, kc, vc);
        return Err(records.error);
      }
      sources := sources + [records.value];
    }
    assert files[..|files|] == files;
    return Ok(sources);
  }

  lemma {:induction false} ParseAllPrefix<K, V>(files: seq<seq<string>>, i: nat, kc: Codec<K>, vc: Codec<V>)
    requires i <= |files| && ParseAll(files[..i], kc, vc).Err?
    ensures ParseAll(files, kc, vc) == ParseAll(files[..i], kc, vc)
    decreases |files|
  {
    if i < |files| {
      var init := files[..|files| - 1];
      assert init[..i] == files[..i];
      ParseAllPrefix(init, i, kc, vc);
    } else {
      assert files[..i] == files;
    }
  }

  /**
   * The reducer, seen from the task. `enough(key, read)` is whether it stops
   * reading the group's values after `read`; `emit(key, read)` is what it
   * puts for the values it read.
   */
  datatype Reducer<!K, !V, KO, VO> = Reducer(enough: (K, seq<V>) -> bool, emit: (K, seq<V>) -> seq<(KO, VO)>)

  /**
   * Every call reads at least one value. (A reducer reading none would be
   * handed the same group forever.)
   */
  ghost predicate ReadsAValue<K(!new), V, KO, VO>(red: Reducer<K, V, KO, VO>) {
    forall k :: !red.enough(k, [])
  }

  /**
   * The reducer calls over a merged input: the key of the head record and the
   * values the call reads. What a call leaves unread is handed to the next
   * call under the same key.
   */
  function ReduceCalls<K(==,!new), V, KO, VO>(s: seq<(K, V)>, red: Reducer<K, V, KO, VO>): seq<(K, seq<V>)>
    requires ReadsAValue(red)
    decreases |s|
  {
    if |s| == 0 then []
    else
      assert Values(s[..0]) == [];
      var n := ReadCount(s, s[0].0, red.enough, 0);
      [(s[0].0, Values(s[..n]))] + ReduceCalls(s[n..], red)
  }

  /** The first call takes the values a reading of `ReadCount` values gives. */
  lemma ReduceCallsStep<K(!new), V, KO, VO>(s: seq<(K, V)>, red: Reducer<K, V, KO, VO>, vals: seq<V>)
    requires ReadsAValue(red) && |s| > 0
    requires |vals| == ReadCount(s, s[0].0, red.enough, 0) && vals == Values(s[..|vals|])
    ensures ReduceCalls(s, red) == [(s[0].0, vals)] + ReduceCalls(s[|vals|..], red)
  {
    assert Values(s[..0]) == [];
  }

  /** What the calls emit, call after call. */
  function EmitAll<K, V, KO, VO>(calls: seq<(K, seq<V>)>, emit: (K, seq<V>) -> seq<(KO, VO)>): seq<(KO, VO)> {
    if |calls| == 0 then [] else emit(calls[0].0, calls[0].1) + EmitAll(calls[1..], emit)
  }

  lemma {:induction false} EmitAllAppend<K, V, KO, VO>(a: seq<(K, seq<V>)>, b: seq<(K, seq<V>)>,
                                                      emit: (K, seq<V>) -> seq<(KO, VO)>)
    ensures EmitAll(a + b, emit) == EmitAll(a, emit) + EmitAll(b, emit)
  {
    if |a| == 0 {
      assert a + b == b;
    } else {
      assert (a + b)[1..] == a[1..] + b;
      assert EmitAll(a + b, emit) == emit(a[0].0, a[0].1) + EmitAll(a[1..] + b, emit);
      EmitAllAppend(a[1..], b, emit);
      AppendAssoc(emit(a[0].0, a[0].1), EmitAll(a[1..], emit), EmitAll(b, emit));
    }
  }

  lemma EmitAllSnoc<K, V, KO, VO>(calls: seq<(K, seq<V>)>, key: K, vals: seq<V>,
                                  emit: (K, seq<V>) -> seq<(KO, VO)>)
    ensures EmitAll(calls + [(key, vals)], emit) == EmitAll(calls, emit) + emit(key, vals)
  {
    EmitAllAppend(calls, [(key, vals)], emit);
    assert EmitAll([(key, vals)], emit) == emit(key, vals);
  }

  lemma AppendAssoc<T>(a: seq<T>, b: seq<T>, c: seq<T>)
    ensures (a + b) + c == a + (b + c)
  {
  }

  /** The records a reduce task writes: everything its reducer calls emit. */
  function ReduceOutput<K(==,!new), V, KO, VO>(s: seq<(K, V)>, red: Reducer<K, V, KO, VO>): seq<(KO, VO)>
    requires ReadsAValue(red)
  {
    EmitAll(ReduceCalls(s, red), red.emit)
  }

  /** The first call reads at least one value, all of them with the head's key. */
  lemma FirstCall<K(!new), V, KO, VO>(s: seq<(K, V)>, red: Reducer<K, V, KO, VO>) returns (n: nat)
    requires ReadsAValue(red) && |s| > 0
    ensures 1 <= n <= |s| && ReduceCalls(s, red) == [(s[0].0, Values(s[..n]))] + ReduceCalls(s[n..], red)
    ensures forall i :: 0 <= i < n ==> s[i].0 == s[0].0
  {
    var k := s[0].0;
    assert Values(s[..0]) == [];
    assert RunLength(s, k) == 1 + RunLength(s[1..], k);
    n := ReadCount(s, k, red.enough, 0);
  }

  /** Every record is handed to exactly one reducer call, in input order. */
  lemma {:induction false} ReduceCallsCover<K(!new), V, KO, VO>(s: seq<(K, V)>, red: Reducer<K, V, KO, VO>)
    requires ReadsAValue(red)
    ensures Ungroup(ReduceCalls(s, red)) == s
    decreases |s|
  {
    if |s| > 0 {
      var n := FirstCall(s, red);
      var first, rest := (s[0].0, Values(s[..n])), ReduceCalls(s[n..], red);
      ReduceCallsCover(s[n..], red);
      var run := s[..n];
      forall i | 0 <= i < |run|
        ensures run[i].0 == first.0
      {
        assert run[i] == s[i];
      }
      PairsOfRun(run, first.0);
      UngroupCons(s, n, first, rest);
    }
  }

  /** A first group holding the first `n` records, followed by groups holding the rest, ungroup to all of them. */
  lemma UngroupCons<K, V>(s: seq<(K, V)>, n: nat, first: (K, seq<V>), rest: seq<(K, seq<V>)>)
    requires n <= |s| && Pairs(first.0, first.1) == s[..n] && Ungroup(rest) == s[n..]
    ensures Ungroup([first] + rest) == s
  {
    assert ([first] + rest)[1..] == rest;
    assert s == s[..n] + s[n..];
  }

  /** Every call is handed at least one value. */
  lemma {:induction false} ReduceCallsNonEmpty<K(!new), V, KO, VO>(s: seq<(K, V)>, red: Reducer<K, V, KO, VO>)
    requires ReadsAValue(red)
    ensures forall i :: 0 <= i < |ReduceCalls(s, red)| ==> |ReduceCalls(s, red)[i].1| > 0
    decreases |s|
  {
    if |s| > 0 {
      assert Values(s[..0]) == [];
      var n := ReadCount(s, s[0].0, red.enough, 0);
      var calls := ReduceCalls(s, red);
      ReduceCallsNonEmpty(s[n..], red);
      assert calls[1..] == ReduceCalls(s[n..], red);
      ValuesLength(s[..n]);
    }
  }

  /** A reducer that reads every value is called once per group, with all of its values. */
  lemma {:induction false} ReduceCallsGroups<K(!new), V, KO, VO>(s: seq<(K, V)>, red: Reducer<K, V, KO, VO>)
    requires forall k, vs :: !red.enough(k, vs)
    ensures ReduceCalls(s, red) == Groups(s)
    ensures ReduceOutput(s, red) == EmitAll(Groups(s), red.emit)
    decreases |s|
  {
    if |s| > 0 {
      assert Values(s[..0]) == [];
      var n := ReadCount(s, s[0].0, red.enough, 0);
      assert n == RunLength(s, s[0].0);
      ReduceCallsGroups(s[n..], red);
    }
  }

  /**
   * What a reduce task would write over the grouped iterator with its missing
   * skip made: one call per group, for every reducer, including one that
   * reads no value.
   */
  function RolledOutput<K(==), V, KO, VO>(s: seq<(K, V)>, red: Reducer<K, V, KO, VO>): seq<(KO, VO)> {
    EmitAll(RolledCalls(s, red.enough), red.emit)
  }

  /**
   * For a reducer that reads every value, the fixed iterator and the one as
   * written give the same output: the reducer applied to each group.
   */
  lemma RolledOutputAgrees<K(!new), V, KO, VO>(s: seq<(K, V)>, red: Reducer<K, V, KO, VO>)
    requires forall k, vs :: !red.enough(k, vs)
    ensures RolledOutput(s, red) == ReduceOutput(s, red) == EmitAll(Groups(s), red.emit)
  {
    RolledCallsReadAll(s, red.enough);
    ReduceCallsGroups(s, red);
  }

  /**
   * A call that stops before the end of its run leaves the rest of the run
   * to the next call, under the same key.
   */
  lemma PartialCallRedelivered<K(!new), V, KO, VO>(s: seq<(K, V)>, red: Reducer<K, V, KO, VO>)
    requires ReadsAValue(red) && |s| > 0
    requires ReadCount(s, s[0].0, red.enough, 0) < RunLength(s, s[0].0)
    ensures |ReduceCalls(s, red)| >= 2
    ensures ReduceCalls(s, red)[1].0 == ReduceCalls(s, red)[0].0
    ensures |ReduceCalls(s, red)[0].1| < |s| && |ReduceCalls(s, red)[1].1| > 0
    ensures ReduceCalls(s, red)[1].1[0] == s[|ReduceCalls(s, red)[0].1|].1
  {
    var k := s[0].0;
    var n := ReadCount(s, k, red.enough, 0);
    ValuesLength(s[..n]);
    ReduceCallsStep(s, red, Values(s[..n]));
    var rest := s[n..];
    assert s[n].0 == k;
    assert rest[0] == s[n];
    var m := ReadCount(rest, rest[0].0, red.enough, 0);
    ValuesLength(rest[..m]);
    ReduceCallsStep(rest, red, Values(rest[..m]));
    ReduceCallsNonEmpty(rest, red);
    assert Values(rest[..m])[0] == rest[0].1;
  }

  /**
   * One turn of the task's loop: the next group is taken, the reducer reads
   * from it, and what it emits is put into the output sink.
   */
  method ReduceGroup<K(==,!new), V, KO, VO>(it: GroupedKeyValuesIterator<K, V>, red: Reducer<K, V, KO, VO>,
                                            sink: FileSink<KO, VO>)
    returns (ghost call: (K, seq<V>))
    requires ReadsAValue(red) && it.Valid() && |it.Remaining()| > 0 && sink.Valid() && !sink.closed
    modifies it, sink
    ensures it.Valid() && sink.Valid() && !sink.closed
    ensures ReduceCalls(old(it.Remaining()), red) == [call] + ReduceCalls(it.Remaining(), red)
    ensures |it.Remaining()| < old(|it.Remaining()|)
    ensures sink.puts == old(sink.puts) + red.emit(call.0, call.1)
  {
    ghost var s := it.Remaining();
    var g := it.Next();
    var key, values := g.value.0, g.value.1;
    var vals := ReadUntil(values, red.enough);
    ReduceCallsStep(s, red, vals);
    PutAll(sink, red.emit(key, vals));
    call := (key, vals);
  }

  /** One turn of the task's loop, in terms of the calls made so far. */
  method ReduceStep<K(==,!new), V, KO, VO>(it: GroupedKeyValuesIterator<K, V>, red: Reducer<K, V, KO, VO>,
                                           sink: FileSink<KO, VO>, ghost merged: seq<(K, V)>,
                                           ghost before: seq<(KO, VO)>, ghost calls: seq<(K, seq<V>)>)
    returns (ghost calls': seq<(K, seq<V>)>)
    requires ReadsAValue(red) && it.Valid() && |it.Remaining()| > 0 && sink.Valid() && !sink.closed
    requires ReduceCalls(merged, red) == calls + ReduceCalls(it.Remaining(), red)
    requires sink.puts == before + EmitAll(calls, red.emit)
    modifies it, sink
    ensures it.Valid() && sink.Valid() && !sink.closed && |it.Remaining()| < old(|it.Remaining()|)
    ensures ReduceCalls(merged, red) == calls' + ReduceCalls(it.Remaining(), red)
    ensures sink.puts == before + EmitAll(calls', red.emit)
  {
    ghost var call := ReduceGroup(it, red, sink);
    EmitAllSnoc(calls, call.0, call.1, red.emit);
    AppendAssoc(before, EmitAll(calls, red.emit), red.emit(call.0, call.1));
    AppendAssoc(calls, [call], ReduceCalls(it.Remaining(), red));
    calls' := calls + [call];
  }

  /**
   * The task's loop: while the grouped iterator has a group, the reducer is
   * called on it and what it emits is put into the output sink.
   */
  method ReduceGroups<K(==,!new), V, KO, VO>(merged: seq<(K, V)>, red: Reducer<K, V, KO, VO>, sink: FileSink<KO, VO>)
    requires ReadsAValue(red) && sink.Valid() && !sink.closed
    modifies sink
    ensures sink.Valid() && !sink.closed
    ensures sink.puts == old(sink.puts) + ReduceOutput(merged, red)
  {
    var it := new GroupedKeyValuesIterator(merged);
    ghost var calls: seq<(K, seq<V>)> := [];
    ghost var before := sink.puts;
    AppendEmpty(ReduceCalls(merged, red));
    AppendEmpty(before);
    while it.HasNext()
      invariant fresh(it) && it.Valid()
      invariant sink.Valid() && !sink.closed
      invariant ReduceCalls(merged, red) == calls + ReduceCalls(it.Remaining(), red)
      invariant sink.puts == before + EmitAll(calls, red.emit)
      decreases |it.Remaining()|
    {
      calls := ReduceStep(it, red, sink, merged, before, calls);
    }
    assert it.Remaining() == [];
    AppendEmpty(calls);
  }

  lemma AppendEmpty<T>(s: seq<T>)
    ensures [] + s == s && s + [] == s
  {
  }

  /**
   * `executeReduceTask`. Every input file is opened, then read; the first
   * failure is the task's error. Otherwise the records are merged by key,
   * grouped, handed to the reducer, and what it emits is the content of
   * "output-{reducerId}.txt". The merge keeps every record read, and is
   * key-sorted when every input file is.
   */
  method ExecuteReduceTask<K(==,!new), V, KO, VO>(dir: Directory, paths: seq<string>, reducerId: int,
                                                  kc: Codec<K>, vc: Codec<V>, cmp: (K, K) -> int,
                                                  red: Reducer<K, V, KO, VO>, okc: Codec<KO>, ovc: Codec<VO>)
    returns (r: Result<(string, seq<string>)>, ghost merged: seq<(K, V)>)
    requires ValidComparator(cmp) && ReadsAValue(red)
    ensures r.Err? <==> LoadInputs(dir, paths, kc, vc).Err?
    ensures r.Err? ==> r.error == LoadInputs(dir, paths, kc, vc).error
    ensures r.Ok? ==> r.value == (ReducerOutputName(reducerId), FileLines(Lines(ReduceOutput(merged, red), okc, ovc)))
    ensures r.Ok? ==> multiset(merged) == multiset(Flatten(LoadInputs(dir, paths, kc, vc).value))
    ensures r.Ok? && AllSorted(LoadInputs(dir, paths, kc, vc).value, cmp) ==> SortedByKey(merged, cmp)
  {
    var files := OpenInputs(dir, paths);
    if files.Err? {
      return Err(files.error), [];
    }
    var sources := ParseInputs(files.value, kc, vc);
    if sources.Err? {
      return Err(sources.error), [];
    }
    var records := MergeAll(sources.value, cmp);
    merged := records;
    var sink := new FileSink(okc, ovc);
    ReduceGroups(records, red, sink);
    sink.Close();
    assert sink.puts == ReduceOutput(records, red);
    r := Ok((ReducerOutputName(reducerId), FileLines(sink.lines)));
  }
}
