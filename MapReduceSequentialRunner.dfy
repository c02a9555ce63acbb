/**
 * `MapReduceSequentialRunner`: the whole job in one process. The input files
 * are split among the map tasks in order, every map task runs to completion
 * and writes its per-reducer files into the mappers' output directory, then
 * every reduce task reads its column of those files and writes its output.
 */
module MapReduceSequentialRunner {
  import opened Wrappers
  import opened JavaInt
  import opened JavaString
  import opened Ordering
  import opened KeyValueFormat
  import opened MergedKeyValueIterators
  import opened PartitionedFileSinks
  import opened SortedRuns
  import opened MapReduceTasksRunner

  // ------------------------------------------------------- splitting the input

  /**
   * The input files of each of the `m` map tasks: task `i` takes the next
   * (files left) / (tasks left) files, so the last tasks take the remainder.
   */
  function Assignment<T>(files: seq<T>, m: int): (r: seq<seq<T>>)
    ensures |r| == if m > 0 then m else 0
    decreases m
  {
    if m <= 0 then []
    else
      var c := |files| / m;
      DivAtMost(|files|, m);
      [files[..c]] + Assignment(files[c..], m - 1)
  }

  /** Every input file is given to exactly one map task, in input order. */
  lemma {:induction false} AssignmentCovers<T>(files: seq<T>, m: int)
    requires m >= 1
    ensures Flatten(Assignment(files, m)) == files
    decreases m
  {
    var c := |files| / m;
    var a := Assignment(files, m);
    assert a[0] == files[..c] && a[1..] == Assignment(files[c..], m - 1);
    if m == 1 {
      assert files[..c] == files;
    } else {
      AssignmentCovers(files[c..], m - 1);
      assert files == files[..c] + files[c..];
    }
  }

  /**
   * With `n` between `q * m` and `q * m + m`, the first task takes `q` or
   * `q + 1` files and what is left is again in range for the other `m - 1`.
   */
  lemma SplitStep(n: int, m: int, q: int)
    requires m >= 1 && q * m <= n <= q * m + m
    ensures q <= n / m <= q + 1
    ensures q * (m - 1) <= n - n / m <= q * (m - 1) + (m - 1)
  {
    assert q * (m - 1) == q * m - q;
    if n == q * m + m {
      DivModUnique(n, q + 1, 0, m);
    } else {
      DivModUnique(n, q, n - q * m, m);
    }
  }

  lemma {:induction false} AssignmentBalancedFrom<T>(files: seq<T>, m: int, q: int)
    requires m >= 1 && q >= 0 && q * m <= |files| <= q * m + m
    ensures forall j :: 0 <= j < m ==> q <= |Assignment(files, m)[j]| <= q + 1
    decreases m
  {
    var c := |files| / m;
    var a := Assignment(files, m);
    SplitStep(|files|, m, q);
    assert a[0] == files[..c] && a[1..] == Assignment(files[c..], m - 1);
    if m > 1 {
      AssignmentBalancedFrom(files[c..], m - 1, q);
      var rest := Assignment(files[c..], m - 1);
      forall j | 1 <= j < m
        ensures q <= |a[j]| <= q + 1
      {
        assert a[j] == rest[j - 1];
      }
    }
  }

  /** The split is balanced: every map task gets `n / m` or `n / m + 1` files. */
  lemma AssignmentBalanced<T>(files: seq<T>, m: int)
    requires m >= 1
    ensures forall j :: 0 <= j < m ==> |files| / m <= |Assignment(files, m)[j]| <= |files| / m + 1
  {
    AssignmentBalancedFrom(files, m, |files| / m);
  }

  // ------------------------------------------------------------ file names

  /** A decimal digit string ends at the first '-' after it. */
  lemma DigitsThenDash(a: string, x: string, b: string, y: string)
    requires AllDigits(a) && AllDigits(b) && a + "-" + x == b + "-" + y
    ensures a == b && x == y
  {
    assert '-' !in a && '-' !in b;
    IndexOfAfter(a, '-', x);
    IndexOfAfter(b, '-', y);
    var s := a + "-" + x;
    assert a == s[..|a|] && x == s[|a| + 1..];
  }

  /** `Integer.toString` is one-to-one on the non-negative numbers. */
  lemma IntToStringInjective(n: int, n': int)
    requires 0 <= n && 0 <= n' && IntToString(n) == IntToString(n')
    ensures n == n'
  {
    DigitsRoundTrip(n);
    DigitsRoundTrip(n');
  }

  /** Distinct (map task, reduce task) pairs name distinct intermediate files. */
  lemma MapperOutputNameInjective(k: int, i: int, k': int, i': int)
    requires 0 <= k && 0 <= i && 0 <= k' && 0 <= i'
    requires MapperOutputName(k, i) == MapperOutputName(k', i')
    ensures k == k' && i == i'
  {
    var prefix := "mapper-output-";
    var a, b, a', b' := IntToString(k), IntToString(i), IntToString(k'), IntToString(i');
    Regroup(prefix, a, "-", b, ".txt");
    Regroup(prefix, a', "-", b', ".txt");
    DropPrefix(prefix, a + "-" + (b + ".txt"), a' + "-" + (b' + ".txt"));
    DigitsThenDash(a, b + ".txt", a', b' + ".txt");
    DropSuffix(b, b', ".txt");
    IntToStringInjective(k, k');
    IntToStringInjective(i, i');
  }

  lemma Regroup(p: string, a: string, d: string, b: string, t: string)
    ensures p + a + d + b + t == p + (a + d + (b + t))
  {
  }

  lemma DropPrefix(p: string, u: string, v: string)
    requires p + u == p + v
    ensures u == v
  {
    assert u == (p + u)[|p|..] && v == (p + v)[|p|..];
  }

  lemma DropSuffix(u: string, v: string, q: string)
    requires u + q == v + q
    ensures u == v
  {
    assert u == (u + q)[..|u|] && v == (v + q)[..|v|];
  }

  /** Distinct reduce tasks write distinct output files. */
  lemma ReducerOutputNameInjective(i: int, i': int)
    requires 0 <= i && 0 <= i' && ReducerOutputName(i) == ReducerOutputName(i')
    ensures i == i'
  {
    var a, a' := IntToString(i), IntToString(i');
    var s := ReducerOutputName(i);
    assert a == s[7..|s| - 4] && a' == s[7..|s| - 4];
    IntToStringInjective(i, i');
  }

  /** The intermediate files are text files. */
  lemma MapperOutputNameIsText(k: int, i: int)
    ensures !EndsWith(MapperOutputName(k, i), ".zip")
  {
    var s := MapperOutputName(k, i);
    assert s[|s| - 4..] == ".txt";
  }

  // ----------------------------------------------------- writing a directory

  /** `dir` after writing the files `outs`, one after the other. */
  function Store(dir: Directory, outs: seq<(string, seq<string>)>): Directory {
    if |outs| == 0 then dir
    else Store(dir, outs[..|outs| - 1])[outs[|outs| - 1].0 := outs[|outs| - 1].1]
  }

  /** A file not among those written keeps its content (or stays absent). */
  lemma {:induction false} StoreKeeps(dir: Directory, outs: seq<(string, seq<string>)>, name: string)
    requires forall j :: 0 <= j < |outs| ==> outs[j].0 != name
    ensures name in Store(dir, outs) <==> name in dir
    ensures name in dir ==> Store(dir, outs)[name] == dir[name]
  {
    if |outs| > 0 {
      StoreKeeps(dir, outs[..|outs| - 1], name);
    }
  }

  /** A file written once holds what was written to it. */
  lemma {:induction false} StoreHolds(dir: Directory, outs: seq<(string, seq<string>)>, j: nat)
    requires j < |outs|
    requires forall j' :: 0 <= j' < |outs| && j' != j ==> outs[j'].0 != outs[j].0
    ensures outs[j].0 in Store(dir, outs) && Store(dir, outs)[outs[j].0] == outs[j].1
  {
    var init := outs[..|outs| - 1];
    if j < |init| {
      StoreHolds(dir, init, j);
    }
  }

  // ---------------------------------------------------------------- map phase

  /** A `MapReduceJob`: the user's functions and the codecs of its records. */
  datatype Job<!K, !V, !KO, !VO> = Job(
    mapper: Mapper<K, V>, reducer: Reducer<K, V, KO, VO>,
    interKey: Codec<K>, interValue: Codec<V>, outKey: Codec<KO>, outValue: Codec<VO>,
    comparator: (K, K) -> int, hasher: Hasher<K>)

  /** Each task runs inside `catch (IOException e) { throw new RuntimeException(); }`. */
  function Rethrown(e: JavaError): JavaError {
    if e.IO? then Runtime("") else e
  }

  /**
   * The map tasks run one after the other on their `tasks` input paths; the
   * first that fails ends the run. A task fails as `MapOutcome` says (the
   * error rethrown), or, when what its mapper emitted does not read back
   * from the sorting sinks' dumps, with a wrapped `BadLine` error, which
   * here stands for whichever such failure the run meets first. On success,
   * the files each task read.
   */
  ghost function MapPhaseOutcome<K, V>(dir: Directory, tasks: seq<seq<string>>, reducersCount: int,
                                       hasher: Hasher<K>, mapper: Mapper<K, V>, kc: Codec<K>, vc: Codec<V>)
    : (r: Result<seq<seq<(string, seq<string>)>>>)
    ensures r.Ok? ==> |r.value| == |tasks|
  {
    if |tasks| == 0 then Ok([])
    else
      match MapPhaseOutcome(dir, tasks[..|tasks| - 1], reducersCount, hasher, mapper, kc, vc)
      case Err(e) => Err(e)
      case Ok(read) =>
        if reducersCount <= 0 then Err(IllegalArgument("Sink list cannot be null or empty."))
        else
          match MapOutcome(dir, tasks[|tasks| - 1], hasher, reducersCount, mapper)
          case Err(e) => Err(Rethrown(e))
          case Ok(files) =>
            if Readable(MapAll(files, mapper), kc, vc) then Ok(read + [files])
            else Err(Wrap(BadLine(UnreadLine(MapAll(files, mapper), kc, vc))))
  }

  /**
   * Two failures of the job agree: they are the same exception, or both are
   * a sorting sink's wrapped `BadLine`, whose line depends on the order in
   * which the sinks read their dumps back.
   */
  ghost predicate SameFailure(e: JavaError, e': JavaError) {
    e == e' || (ReadBackFailure(e) && ReadBackFailure(e'))
  }

  /** A failure of one of the first tasks is the failure of the phase. */
  lemma {:induction false} MapPhasePrefix<K, V>(dir: Directory, tasks: seq<seq<string>>, reducersCount: int,
                                                hasher: Hasher<K>, mapper: Mapper<K, V>,
                                                kc: Codec<K>, vc: Codec<V>, i: nat)
    requires i <= |tasks| && MapPhaseOutcome(dir, tasks[..i], reducersCount, hasher, mapper, kc, vc).Err?
    ensures MapPhaseOutcome(dir, tasks, reducersCount, hasher, mapper, kc, vc)
         == MapPhaseOutcome(dir, tasks[..i], reducersCount, hasher, mapper, kc, vc)
    decreases |tasks|
  {
    if i < |tasks| {
      var init := tasks[..|tasks| - 1];
      assert init[..i] == tasks[..i];
      MapPhasePrefix(dir, init, reducersCount, hasher, mapper, kc, vc, i);
    } else {
      assert tasks[..i] == tasks;
    }
  }

  /** A successful phase ran every task successfully, and read what each task reads. */
  lemma {:induction false} MapPhaseOk<K, V>(dir: Directory, tasks: seq<seq<string>>, reducersCount: int,
                                            hasher: Hasher<K>, mapper: Mapper<K, V>,
                                            kc: Codec<K>, vc: Codec<V>)
    requires |tasks| > 0 && MapPhaseOutcome(dir, tasks, reducersCount, hasher, mapper, kc, vc).Ok?
    ensures reducersCount >= 1
    ensures forall k :: 0 <= k < |tasks| ==>
              MapOutcome(dir, tasks[k], hasher, reducersCount, mapper)
              == Ok(MapPhaseOutcome(dir, tasks, reducersCount, hasher, mapper, kc, vc).value[k])
  {
    var init := tasks[..|tasks| - 1];
    var read := MapPhaseOutcome(dir, tasks, reducersCount, hasher, mapper, kc, vc).value;
    if |init| > 0 {
      MapPhaseOk(dir, init, reducersCount, hasher, mapper, kc, vc);
    }
    forall k | 0 <= k < |tasks|
      ensures MapOutcome(dir, tasks[k], hasher, reducersCount, mapper) == Ok(read[k])
    {
      if k < |init| {
        assert tasks[k] == init[k];
        assert read[k] == MapPhaseOutcome(dir, init, reducersCount, hasher, mapper, kc, vc).value[k];
      }
    }
  }

  /**
   * With every input present and 1 to 2^30 reducers, the map phase succeeds
   * exactly when every task's emissions read back from its dumps, which
   * line-safe codecs guarantee; otherwise a dump that does not read back
   * ends it.
   */
  lemma {:induction false} MapPhaseSucceeds<K(!new), V(!new)>(dir: Directory, tasks: seq<seq<string>>,
                                                              reducersCount: int, hasher: Hasher<K>,
                                                              mapper: Mapper<K, V>, kc: Codec<K>, vc: Codec<V>)
    requires 1 <= reducersCount <= 0x4000_0000
    requires forall k, j :: 0 <= k < |tasks| && 0 <= j < |tasks[k]| ==> tasks[k][j] in dir
    ensures MapPhaseOutcome(dir, tasks, reducersCount, hasher, mapper, kc, vc).Ok?
        <==> forall k :: 0 <= k < |tasks| ==> MapTaskOk(dir, tasks[k], hasher, reducersCount, mapper, kc, vc)
    ensures MapPhaseOutcome(dir, tasks, reducersCount, hasher, mapper, kc, vc).Err? ==>
              ReadBackFailure(MapPhaseOutcome(dir, tasks, reducersCount, hasher, mapper, kc, vc).error)
    ensures LineSafe(kc, vc) ==> MapPhaseOutcome(dir, tasks, reducersCount, hasher, mapper, kc, vc).Ok?
  {
    if |tasks| > 0 {
      var init, last := tasks[..|tasks| - 1], tasks[|tasks| - 1];
      assert forall k :: 0 <= k < |init| ==> init[k] == tasks[k];
      MapPhaseSucceeds(dir, init, reducersCount, hasher, mapper, kc, vc);
      MapTaskSucceeds(dir, last, hasher, reducersCount, mapper, kc, vc);
      var emitted := MapAll(MapOutcome(dir, last, hasher, reducersCount, mapper).value, mapper);
      if MapPhaseOutcome(dir, init, reducersCount, hasher, mapper, kc, vc).Ok? && !Readable(emitted, kc, vc) {
        var line := UnreadLine(emitted, kc, vc);
        assert ' ' !in line;
      }
      if !MapPhaseOutcome(dir, init, reducersCount, hasher, mapper, kc, vc).Ok? {
        var k :| 0 <= k < |init| && !MapTaskOk(dir, init[k], hasher, reducersCount, mapper, kc, vc);
        assert !MapTaskOk(dir, tasks[k], hasher, reducersCount, mapper, kc, vc);
      }
    }
  }

  /** The files of map task `k` are in `dir`: file `j` holds the lines `merged[j]` was written as. */
  ghost predicate OutputsIn<K, V>(dir: Directory, k: int, merged: seq<seq<(K, V)>>, kc: Codec<K>, vc: Codec<V>) {
    forall j :: 0 <= j < |merged| ==>
      MapperOutputName(k, j) in dir && dir[MapperOutputName(k, j)] == FileLines(Lines(merged[j], kc, vc))
  }

  /** The files of the first `|shares|` map tasks are in `dir`. */
  ghost predicate AllOutputsIn<K, V>(dir: Directory, shares: seq<seq<seq<(K, V)>>>, kc: Codec<K>, vc: Codec<V>) {
    forall k :: 0 <= k < |shares| ==> OutputsIn(dir, k, shares[k], kc, vc)
  }

  /**
   * For every reducer `j`, a map task that read `files` wrote the records
   * routed to `j` of what the mapper emitted over them, sorted by key.
   */
  ghost predicate TaskShares<K, V>(merged: seq<seq<(K, V)>>, files: seq<(string, seq<string>)>,
                                   reducersCount: int, cmp: (K, K) -> int, hasher: Hasher<K>, mapper: Mapper<K, V>) {
    && reducersCount >= 1 && |merged| == reducersCount
    && forall j {:trigger merged[j]} :: 0 <= j < reducersCount ==>
         && SortedByKey(merged[j], cmp)
         && multiset(merged[j]) == multiset(Routed(MapAll(files, mapper), Destination(hasher, reducersCount), j))
  }

  /** Writing the files of map task `k` puts them in place and leaves the other tasks' files alone. */
  lemma StoreOutputs<K, V>(dir: Directory, outs: seq<(string, seq<string>)>, k: int, merged: seq<seq<(K, V)>>,
                           kc: Codec<K>, vc: Codec<V>)
    requires k >= 0 && |outs| == |merged|
    requires forall j :: 0 <= j < |outs| ==> outs[j] == (MapperOutputName(k, j), FileLines(Lines(merged[j], kc, vc)))
    ensures OutputsIn(Store(dir, outs), k, merged, kc, vc)
    ensures forall k', merged' :: 0 <= k' && k' != k && OutputsIn(dir, k', merged', kc, vc) ==>
              OutputsIn(Store(dir, outs), k', merged', kc, vc)
    ensures forall shares :: |shares| == k && AllOutputsIn(dir, shares, kc, vc) ==>
              AllOutputsIn(Store(dir, outs), shares + [merged], kc, vc)
  {
    StoreOwnOutputs(dir, outs, k, merged, kc, vc);
    forall k', merged' | 0 <= k' && k' != k && OutputsIn(dir, k', merged', kc, vc)
      ensures OutputsIn(Store(dir, outs), k', merged', kc, vc)
    {
      StoreOtherOutputs(dir, outs, k, k', merged', kc, vc);
    }
    forall shares | |shares| == k && AllOutputsIn(dir, shares, kc, vc)
      ensures AllOutputsIn(Store(dir, outs), shares + [merged], kc, vc)
    {
      var shares' := shares + [merged];
      forall k' | 0 <= k' < |shares'|
        ensures OutputsIn(Store(dir, outs), k', shares'[k'], kc, vc)
      {
        if k' < k {
          assert shares'[k'] == shares[k'];
          StoreOtherOutputs(dir, outs, k, k', shares[k'], kc, vc);
        }
      }
    }
  }

  /** The files of map task `k` are in place once written. */
  lemma StoreOwnOutputs<K, V>(dir: Directory, outs: seq<(string, seq<string>)>, k: int, merged: seq<seq<(K, V)>>,
                              kc: Codec<K>, vc: Codec<V>)
    requires k >= 0 && |outs| == |merged|
    requires forall j :: 0 <= j < |outs| ==> outs[j] == (MapperOutputName(k, j), FileLines(Lines(merged[j], kc, vc)))
    ensures OutputsIn(Store(dir, outs), k, merged, kc, vc)
  {
    forall j | 0 <= j < |outs|
      ensures MapperOutputName(k, j) in Store(dir, outs)
      ensures Store(dir, outs)[MapperOutputName(k, j)] == FileLines(Lines(merged[j], kc, vc))
    {
      forall j' | 0 <= j' < |outs| && j' != j
        ensures outs[j'].0 != outs[j].0
      {
        if outs[j'].0 == outs[j].0 {
          MapperOutputNameInjective(k, j', k, j);
        }
      }
      StoreHolds(dir, outs, j);
    }
  }

  /** Writing the files of map task `k` leaves those of task `k'` alone. */
  lemma StoreOtherOutputs<K, V>(dir: Directory, outs: seq<(string, seq<string>)>, k: int, k': int,
                                merged': seq<seq<(K, V)>>, kc: Codec<K>, vc: Codec<V>)
    requires k >= 0 && 0 <= k' && k' != k && OutputsIn(dir, k', merged', kc, vc)
    requires forall j :: 0 <= j < |outs| ==> outs[j].0 == MapperOutputName(k, j)
    ensures OutputsIn(Store(dir, outs), k', merged', kc, vc)
  {
    forall j | 0 <= j < |merged'|
      ensures MapperOutputName(k', j) in Store(dir, outs)
      ensures Store(dir, outs)[MapperOutputName(k', j)] == FileLines(Lines(merged'[j], kc, vc))
    {
      forall j' | 0 <= j' < |outs|
        ensures outs[j'].0 != MapperOutputName(k', j)
      {
        if outs[j'].0 == MapperOutputName(k', j) {
          MapperOutputNameInjective(k, j', k', j);
        }
      }
      StoreKeeps(dir, outs, MapperOutputName(k', j));
    }
  }

  /**
   * One map task, with an IOException rethrown as a RuntimeException. On
   * success its files are written to the mappers' output directory `dir`.
   */
  method RunMapper<K(!new), V(!new), KO, VO>(job: Job<K, V, KO, VO>, inputDir: Directory, paths: seq<string>,
                                             mapperId: int, reducersCount: int, sorterRecords: int, dir: Directory,
                                             ghost shares: seq<seq<seq<(K, V)>>>)
    returns (r: Result<Directory>, ghost merged: seq<seq<(K, V)>>)
    requires ValidComparator(job.comparator) && IsInt32(reducersCount) && mapperId >= 0
    ensures reducersCount <= 0 ==> r == Err(IllegalArgument("Sink list cannot be null or empty."))
    ensures reducersCount > 0 ==>
              (r.Ok? <==> MapTaskOk(inputDir, paths, job.hasher, reducersCount, job.mapper, job.interKey, job.interValue))
    ensures reducersCount > 0 && MapOutcome(inputDir, paths, job.hasher, reducersCount, job.mapper).Err? ==>
              r == Err(Rethrown(MapOutcome(inputDir, paths, job.hasher, reducersCount, job.mapper).error))
    ensures reducersCount > 0 && MapOutcome(inputDir, paths, job.hasher, reducersCount, job.mapper).Ok? && r.Err? ==>
              ReadBackFailure(r.error)
    ensures r.Ok? ==> |merged| == reducersCount && OutputsIn(r.value, mapperId, merged, job.interKey, job.interValue)
    ensures r.Ok? && |shares| == mapperId && AllOutputsIn(dir, shares, job.interKey, job.interValue) ==>
              AllOutputsIn(r.value, shares + [merged], job.interKey, job.interValue)
    ensures r.Ok? && LineSafe(job.interKey, job.interValue) ==>
              TaskShares(merged, MapOutcome(inputDir, paths, job.hasher, reducersCount, job.mapper).value,
                         reducersCount, job.comparator, job.hasher, job.mapper)
  {
    var res, m := ExecuteMapperTask(inputDir, paths, mapperId, reducersCount, sorterRecords,
                                    job.interKey, job.interValue, job.comparator, job.hasher, job.mapper);
    if res.Err? {
      if reducersCount > 0 && MapOutcome(inputDir, paths, job.hasher, reducersCount, job.mapper).Ok? {
        ghost var line :| ' ' !in line && res.error == Wrap(BadLine(line));
        assert Rethrown(res.error) == res.error;
      }
      return Err(Rethrown(res.error)), [];
    }
    StoreOutputs(dir, res.value, mapperId, m, job.interKey, job.interValue);
    r, merged := Ok(Store(dir, res.value)), m;
  }

  /** What the map tasks read, each with the files it wrote for every reducer. */
  ghost predicate SharesRouted<K, V>(shares: seq<seq<seq<(K, V)>>>, read: seq<seq<(string, seq<string>)>>,
                                     reducersCount: int, cmp: (K, K) -> int, hasher: Hasher<K>, mapper: Mapper<K, V>) {
    && |shares| == |read|
    && forall k :: 0 <= k < |shares| ==> TaskShares(shares[k], read[k], reducersCount, cmp, hasher, mapper)
  }

  /** Task `i` of `m` takes the next (files left) / (tasks left) files. */
  lemma AssignmentNext<T>(files: seq<T>, m: int, i: int, processed: nat, count: int)
    requires 0 <= i < m && processed <= |files| && count == (|files| - processed) / (m - i)
    ensures 0 <= count && processed + count <= |files|
    ensures Assignment(files[processed..], m - i)
            == [files[processed..processed + count]] + Assignment(files[processed + count..], m - i - 1)
  {
    assert files[processed..][count..] == files[processed + count..];
    assert files[processed..][..count] == files[processed..processed + count];
  }

  /** One more successful map task adds the files it read. */
  lemma MapPhaseSnoc<K, V>(dir: Directory, done: seq<seq<string>>, paths: seq<string>, reducersCount: int,
                           hasher: Hasher<K>, mapper: Mapper<K, V>,
                           kc: Codec<K>, vc: Codec<V>)
    requires MapPhaseOutcome(dir, done, reducersCount, hasher, mapper, kc, vc).Ok?
    requires reducersCount >= 1
    ensures var next := MapPhaseOutcome(dir, done + [paths], reducersCount, hasher, mapper, kc, vc);
            var task := MapOutcome(dir, paths, hasher, reducersCount, mapper);
            && (next.Ok? <==> MapTaskOk(dir, paths, hasher, reducersCount, mapper, kc, vc))
            && (task.Err? ==> next == Err(Rethrown(task.error)))
            && (task.Ok? && next.Err? ==> ReadBackFailure(next.error))
            && (next.Ok? ==>
                  next.value == MapPhaseOutcome(dir, done, reducersCount, hasher, mapper, kc, vc).value + [task.value])
  {
    assert (done + [paths])[..|done|] == done;
    var task := MapOutcome(dir, paths, hasher, reducersCount, mapper);
    if task.Ok? && !Readable(MapAll(task.value, mapper), kc, vc) {
      assert ' ' !in UnreadLine(MapAll(task.value, mapper), kc, vc);
    }
  }

  /** A run whose first `i + 1` tasks include a failing one fails with that task's error. */
  lemma MapPhaseStops<K, V>(dir: Directory, tasks: seq<seq<string>>, done: seq<seq<string>>, paths: seq<string>,
                            reducersCount: int, hasher: Hasher<K>, mapper: Mapper<K, V>,
                            kc: Codec<K>, vc: Codec<V>)
    requires |done| < |tasks| && tasks[..|done| + 1] == done + [paths]
    requires MapPhaseOutcome(dir, done + [paths], reducersCount, hasher, mapper, kc, vc).Err?
    ensures MapPhaseOutcome(dir, tasks, reducersCount, hasher, mapper, kc, vc)
         == MapPhaseOutcome(dir, done + [paths], reducersCount, hasher, mapper, kc, vc)
  {
    MapPhasePrefix(dir, tasks, reducersCount, hasher, mapper, kc, vc, |done| + 1);
  }

  lemma SharesRoutedSnoc<K, V>(shares: seq<seq<seq<(K, V)>>>, read: seq<seq<(string, seq<string>)>>,
                               merged: seq<seq<(K, V)>>, files: seq<(string, seq<string>)>,
                               reducersCount: int, cmp: (K, K) -> int, hasher: Hasher<K>, mapper: Mapper<K, V>)
    requires SharesRouted(shares, read, reducersCount, cmp, hasher, mapper)
    requires TaskShares(merged, files, reducersCount, cmp, hasher, mapper)
    ensures SharesRouted(shares + [merged], read + [files], reducersCount, cmp, hasher, mapper)
  {
    var shares', read' := shares + [merged], read + [files];
    forall k | 0 <= k < |shares'|
      ensures TaskShares(shares'[k], read'[k], reducersCount, cmp, hasher, mapper)
    {
      if k < |shares| {
        assert shares'[k] == shares[k] && read'[k] == read[k];
      }
    }
  }

  /**
   * Where the first loop of `run` stands before task `i`: the tasks `done` so
   * far took the first `processed` input files and read `read`, and their
   * files are in `dir`.
   */
  ghost predicate MapLoop<K(!new), V(!new), KO, VO>(job: Job<K, V, KO, VO>, inputDir: Directory, inputs: seq<string>,
                                                    mappersCount: int, reducersCount: int, i: int, processed: int,
                                                    dir: Directory, done: seq<seq<string>>,
                                                    read: seq<seq<(string, seq<string>)>>, shares: seq<seq<seq<(K, V)>>>) {
    && 0 <= i && (i <= mappersCount || i == 0)
    && 0 <= processed <= |inputs|
    && |done| == i && done + Assignment(inputs[processed..], mappersCount - i) == Assignment(inputs, mappersCount)
    && MapPhaseOutcome(inputDir, done, reducersCount, job.hasher, job.mapper, job.interKey, job.interValue) == Ok(read)
    && |shares| == i && AllOutputsIn(dir, shares, job.interKey, job.interValue)
    && (forall k :: 0 <= k < i ==> |shares[k]| == reducersCount)
    && (LineSafe(job.interKey, job.interValue) ==>
          SharesRouted(shares, read, reducersCount, job.comparator, job.hasher, job.mapper))
  }

  /** A failing task `i` ends the phase with its error. */
  lemma MapLoopFails<K(!new), V(!new), KO, VO>(job: Job<K, V, KO, VO>, inputDir: Directory, inputs: seq<string>,
                                               mappersCount: int, reducersCount: int, i: int, processed: int,
                                               count: int, dir: Directory, done: seq<seq<string>>,
                                               read: seq<seq<(string, seq<string>)>>, shares: seq<seq<seq<(K, V)>>>)
    requires i < mappersCount && count == (|inputs| - processed) / (mappersCount - i)
    requires 0 <= processed && 0 <= count && processed + count <= |inputs|
    requires MapLoop(job, inputDir, inputs, mappersCount, reducersCount, i, processed, dir, done, read, shares)
    requires reducersCount <= 0 || !MapTaskOk(inputDir, inputs[processed..processed + count], job.hasher,
                                              reducersCount, job.mapper, job.interKey, job.interValue)
    ensures var outcome := MapPhaseOutcome(inputDir, Assignment(inputs, mappersCount), reducersCount,
                                           job.hasher, job.mapper, job.interKey, job.interValue);
            var paths := inputs[processed..processed + count];
            && outcome.Err?
            && (reducersCount <= 0 ==> outcome.error == IllegalArgument("Sink list cannot be null or empty."))
            && (reducersCount > 0 && MapOutcome(inputDir, paths, job.hasher, reducersCount, job.mapper).Err? ==>
                  outcome.error == Rethrown(MapOutcome(inputDir, paths, job.hasher, reducersCount, job.mapper).error))
            && (reducersCount > 0 && MapOutcome(inputDir, paths, job.hasher, reducersCount, job.mapper).Ok? ==>
                  ReadBackFailure(outcome.error))
  {
    AssignmentNext(inputs, mappersCount, i, processed, count);
    var paths := inputs[processed..processed + count];
    assert (done + [paths])[..i] == done;
    assert Assignment(inputs, mappersCount)[..i + 1] == done + [paths];
    if reducersCount > 0 {
      MapPhaseSnoc(inputDir, done, paths, reducersCount, job.hasher, job.mapper, job.interKey, job.interValue);
    }
    MapPhaseStops(inputDir, Assignment(inputs, mappersCount), done, paths, reducersCount, job.hasher, job.mapper,
                  job.interKey, job.interValue);
  }

  /** A successful task `i` moves the loop on to task `i + 1`. */
  lemma MapLoopNext<K(!new), V(!new), KO, VO>(job: Job<K, V, KO, VO>, inputDir: Directory, inputs: seq<string>,
                                              mappersCount: int, reducersCount: int, i: int, processed: int,
                                              count: int, dir: Directory, done: seq<seq<string>>,
                                              read: seq<seq<(string, seq<string>)>>, shares: seq<seq<seq<(K, V)>>>,
                                              dir': Directory, merged: seq<seq<(K, V)>>)
    requires i < mappersCount && count == (|inputs| - processed) / (mappersCount - i)
    requires 0 <= processed && 0 <= count && processed + count <= |inputs|
    requires MapLoop(job, inputDir, inputs, mappersCount, reducersCount, i, processed, dir, done, read, shares)
    requires reducersCount >= 1 && |merged| == reducersCount
    requires MapTaskOk(inputDir, inputs[processed..processed + count], job.hasher, reducersCount, job.mapper,
                       job.interKey, job.interValue)
    requires AllOutputsIn(dir', shares + [merged], job.interKey, job.interValue)
    requires LineSafe(job.interKey, job.interValue) ==>
               TaskShares(merged, MapOutcome(inputDir, inputs[processed..processed + count], job.hasher,
                                             reducersCount, job.mapper).value,
                          reducersCount, job.comparator, job.hasher, job.mapper)
    ensures var paths := inputs[processed..processed + count];
            MapLoop(job, inputDir, inputs, mappersCount, reducersCount, i + 1, processed + count, dir',
                    done + [paths],
                    read + [MapOutcome(inputDir, paths, job.hasher, reducersCount, job.mapper).value],
                    shares + [merged])
  {
    AssignmentNext(inputs, mappersCount, i, processed, count);
    var paths := inputs[processed..processed + count];
    var files := MapOutcome(inputDir, paths, job.hasher, reducersCount, job.mapper).value;
    var rest := Assignment(inputs[processed + count..], mappersCount - i - 1);
    var done', read', shares' := done + [paths], read + [files], shares + [merged];
    assert done' + rest == Assignment(inputs, mappersCount) by {
      assert done' + rest == done + ([paths] + rest);
    }
    MapPhaseSnoc(inputDir, done, paths, reducersCount, job.hasher, job.mapper, job.interKey, job.interValue);
    forall k | 0 <= k < i + 1
      ensures |shares'[k]| == reducersCount
    {
      if k < i {
        assert shares'[k] == shares[k];
      }
    }
    if LineSafe(job.interKey, job.interValue) {
      SharesRoutedSnoc(shares, read, merged, files, reducersCount, job.comparator, job.hasher, job.mapper);
    }
    MapLoopIntro(job, inputDir, inputs, mappersCount, reducersCount, i + 1, processed + count, dir', done', read',
                 shares');
  }

  lemma MapLoopIntro<K(!new), V(!new), KO, VO>(job: Job<K, V, KO, VO>, inputDir: Directory, inputs: seq<string>,
                                               mappersCount: int, reducersCount: int, i: int, processed: int,
                                               dir: Directory, done: seq<seq<string>>,
                                               read: seq<seq<(string, seq<string>)>>, shares: seq<seq<seq<(K, V)>>>)
    requires 0 <= i && (i <= mappersCount || i == 0)
    requires 0 <= processed <= |inputs|
    requires |done| == i && done + Assignment(inputs[processed..], mappersCount - i) == Assignment(inputs, mappersCount)
    requires MapPhaseOutcome(inputDir, done, reducersCount, job.hasher, job.mapper, job.interKey, job.interValue) == Ok(read)
    requires |shares| == i && AllOutputsIn(dir, shares, job.interKey, job.interValue)
    requires forall k :: 0 <= k < i ==> |shares[k]| == reducersCount
    requires LineSafe(job.interKey, job.interValue) ==>
               SharesRouted(shares, read, reducersCount, job.comparator, job.hasher, job.mapper)
    ensures MapLoop(job, inputDir, inputs, mappersCount, reducersCount, i, processed, dir, done, read, shares)
  {
  }

  /** One turn of the first loop of `run`: map task `i` on the next files. */
  method MapNext<K(!new), V(!new), KO, VO>(job: Job<K, V, KO, VO>, inputDir: Directory, inputs: seq<string>,
                                           mappersCount: int, reducersCount: int, sorterRecords: int,
                                           i: int, processed: int, dir: Directory, ghost done: seq<seq<string>>,
                                           ghost read: seq<seq<(string, seq<string>)>>,
                                           ghost shares: seq<seq<seq<(K, V)>>>)
    returns (r: Result<Directory>, processed': int, ghost done': seq<seq<string>>,
             ghost read': seq<seq<(string, seq<string>)>>, ghost shares': seq<seq<seq<(K, V)>>>)
    requires ValidComparator(job.comparator) && IsInt32(reducersCount) && i < mappersCount
    requires MapLoop(job, inputDir, inputs, mappersCount, reducersCount, i, processed, dir, done, read, shares)
    ensures r.Err? ==>
              var outcome := MapPhaseOutcome(inputDir, Assignment(inputs, mappersCount), reducersCount,
                                             job.hasher, job.mapper, job.interKey, job.interValue);
              outcome.Err? && SameFailure(r.error, outcome.error)
    ensures r.Ok? ==>
              MapLoop(job, inputDir, inputs, mappersCount, reducersCount, i + 1, processed', r.value, done', read', shares')
  {
    var count := (|inputs| - processed) / (mappersCount - i);
    AssignmentNext(inputs, mappersCount, i, processed, count);
    var paths := inputs[processed..processed + count];
    var res, merged := RunMapper(job, inputDir, paths, i, reducersCount, sorterRecords, dir, shares);
    if res.Err? {
      MapLoopFails(job, inputDir, inputs, mappersCount, reducersCount, i, processed, count, dir, done, read, shares);
      return Err(res.error), processed, done, read, shares;
    }
    MapLoopNext(job, inputDir, inputs, mappersCount, reducersCount, i, processed, count, dir, done, read, shares,
                res.value, merged);
    r, processed' := res, processed + count;
    done', read', shares' := done + [paths], read + [MapOutcome(inputDir, paths, job.hasher, reducersCount, job.mapper).value],
                             shares + [merged];
  }

  /**
   * The first loop of `run`: the map tasks in order, task `i` on its share of
   * the input files. The phase fails as `MapPhaseOutcome` says; on success
   * the files of every task are in the mappers' output directory.
   */
  method MapPhase<K(!new), V(!new), KO, VO>(job: Job<K, V, KO, VO>, inputDir: Directory, inputs: seq<string>,
                                            mappersCount: int, reducersCount: int, sorterRecords: int,
                                            mapDir: Directory)
    returns (r: Result<Directory>, ghost shares: seq<seq<seq<(K, V)>>>)
    requires ValidComparator(job.comparator) && IsInt32(reducersCount)
    ensures var outcome := MapPhaseOutcome(inputDir, Assignment(inputs, mappersCount), reducersCount,
                                           job.hasher, job.mapper, job.interKey, job.interValue);
            && (r.Ok? <==> outcome.Ok?)
            && (r.Err? ==> SameFailure(r.error, outcome.error))
    ensures r.Ok? ==> |shares| == |Assignment(inputs, mappersCount)|
    ensures r.Ok? ==> AllOutputsIn(r.value, shares, job.interKey, job.interValue)
    ensures r.Ok? ==> forall k :: 0 <= k < |shares| ==> |shares[k]| == reducersCount
    ensures r.Ok? && LineSafe(job.interKey, job.interValue) ==>
              var outcome := MapPhaseOutcome(inputDir, Assignment(inputs, mappersCount), reducersCount,
                                             job.hasher, job.mapper, job.interKey, job.interValue);
              SharesRouted(shares, outcome.value, reducersCount, job.comparator, job.hasher, job.mapper)
  {
    ghost var done: seq<seq<string>> := [];
    ghost var read: seq<seq<(string, seq<string>)>> := [];
    var dir := mapDir;
    var processed := 0;
    shares := [];
    var i := 0;
    while i < mappersCount
      invariant MapLoop(job, inputDir, inputs, mappersCount, reducersCount, i, processed, dir, done, read, shares)
      decreases mappersCount - i
    {
      var res;
      res, processed, done, read, shares :=
        MapNext(job, inputDir, inputs, mappersCount, reducersCount, sorterRecords, i, processed, dir, done, read, shares);
      if res.Err? {
        return Err(res.error), [];
      }
      dir := res.value;
      i := i + 1;
    }
    assert done == Assignment(inputs, mappersCount);
    r := Ok(dir);
  }

  // ------------------------------------------------------------- reduce phase

  /** The intermediate files reduce task `i` reads, one per map task, named by `name`. */
  function Column(name: (int, int) -> string, mappersCount: int, i: int): (paths: seq<string>)
    ensures |paths| == if mappersCount > 0 then mappersCount else 0
  {
    seq(if mappersCount > 0 then mappersCount else 0, k => name(k, i))
  }

  /** What the first `n` reduce tasks load; the first that fails ends the run. */
  function ReducePhaseOutcome<K, V>(dir: Directory, name: (int, int) -> string, mappersCount: int, n: int,
                                    kc: Codec<K>, vc: Codec<V>): Result<()>
    decreases n
  {
    if n <= 0 then Ok(())
    else
      match ReducePhaseOutcome(dir, name, mappersCount, n - 1, kc, vc)
      case Err(e) => Err(e)
      case Ok(_) =>
        match LoadInputs(dir, Column(name, mappersCount, n - 1), kc, vc)
        case Err(e) => Err(Rethrown(e))
        case Ok(_) => Ok(())
  }

  /** The run stops at the first reduce task that fails. */
  lemma {:induction false} ReducePhaseStops<K, V>(dir: Directory, name: (int, int) -> string, mappersCount: int,
                                                  i: int, n: int, kc: Codec<K>, vc: Codec<V>)
    requires i <= n && ReducePhaseOutcome(dir, name, mappersCount, i, kc, vc).Err?
    ensures ReducePhaseOutcome(dir, name, mappersCount, n, kc, vc) == ReducePhaseOutcome(dir, name, mappersCount, i, kc, vc)
    decreases n
  {
    if i < n {
      ReducePhaseStops(dir, name, mappersCount, i, n - 1, kc, vc);
    }
  }

  /** Reduce task `i` failing to load its inputs ends the run with its (rethrown) error. */
  lemma ReducePhaseFailsAt<K, V>(dir: Directory, name: (int, int) -> string, mappersCount: int,
                                 i: int, n: int, kc: Codec<K>, vc: Codec<V>)
    requires 0 <= i < n && ReducePhaseOutcome(dir, name, mappersCount, i, kc, vc).Ok?
    requires LoadInputs(dir, Column(name, mappersCount, i), kc, vc).Err?
    ensures ReducePhaseOutcome(dir, name, mappersCount, n, kc, vc)
            == Err(Rethrown(LoadInputs(dir, Column(name, mappersCount, i), kc, vc).error))
  {
    var loaded := LoadInputs(dir, Column(name, mappersCount, i), kc, vc);
    assert ReducePhaseOutcome(dir, name, mappersCount, i + 1, kc, vc) == Err(Rethrown(loaded.error));
    ReducePhaseStops(dir, name, mappersCount, i + 1, n, kc, vc);
  }

  /**
   * Reduce task `t` loaded its inputs, wrote what the reducer emitted over
   * `merged` to "output-{t}.txt", and `merged` holds every record loaded,
   * sorted by key when every input is.
   */
  ghost predicate ReduceDone<K(!new), V, KO, VO>(job: Job<K, V, KO, VO>, dir: Directory, name: (int, int) -> string,
                                                 mappersCount: int, t: int, outDir: Directory, merged: seq<(K, V)>) {
    var loaded := LoadInputs(dir, Column(name, mappersCount, t), job.interKey, job.interValue);
    && ReadsAValue(job.reducer)
    && ReducerOutputName(t) in outDir
    && outDir[ReducerOutputName(t)] == FileLines(Lines(ReduceOutput(merged, job.reducer), job.outKey, job.outValue))
    && loaded.Ok?
    && multiset(merged) == multiset(Flatten(loaded.value))
    && (AllSorted(loaded.value, job.comparator) ==> SortedByKey(merged, job.comparator))
  }

  /** Where the second loop of `run` stands before reduce task `i`. */
  ghost predicate ReduceLoop<K(!new), V, KO, VO>(job: Job<K, V, KO, VO>, dir: Directory, name: (int, int) -> string,
                                                 mappersCount: int, i: int, outDir: Directory,
                                                 merged: seq<seq<(K, V)>>) {
    && 0 <= i && |merged| == i
    && ReducePhaseOutcome(dir, name, mappersCount, i, job.interKey, job.interValue) == Ok(())
    && forall t :: 0 <= t < i ==> ReduceDone(job, dir, name, mappersCount, t, outDir, merged[t])
  }

  /** Writing reduce task `i`'s output leaves the earlier outputs alone. */
  lemma ReduceLoopNext<K(!new), V, KO, VO>(job: Job<K, V, KO, VO>, dir: Directory, name: (int, int) -> string,
                                           mappersCount: int, i: int, outDir: Directory, merged: seq<seq<(K, V)>>,
                                           records: seq<(K, V)>, lines: seq<string>)
    requires ReduceLoop(job, dir, name, mappersCount, i, outDir, merged)
    requires ReduceDone(job, dir, name, mappersCount, i, outDir[ReducerOutputName(i) := lines], records)
    ensures ReduceLoop(job, dir, name, mappersCount, i + 1, outDir[ReducerOutputName(i) := lines], merged + [records])
  {
    var outDir', merged' := outDir[ReducerOutputName(i) := lines], merged + [records];
    forall t | 0 <= t < i + 1
      ensures ReduceDone(job, dir, name, mappersCount, t, outDir', merged'[t])
    {
      if t < i {
        assert merged'[t] == merged[t];
        if ReducerOutputName(t) == ReducerOutputName(i) {
          ReducerOutputNameInjective(t, i);
        }
        assert ReduceDone(job, dir, name, mappersCount, t, outDir, merged[t]);
      }
    }
  }

  /** One turn of the second loop of `run`: reduce task `i` on its column. */
  method ReduceNext<K(==,!new), V, KO, VO>(job: Job<K, V, KO, VO>, dir: Directory, name: (int, int) -> string,
                                           mappersCount: int, reducersCount: int, i: int, outDir: Directory,
                                           ghost merged: seq<seq<(K, V)>>)
    returns (r: Result<Directory>, ghost merged': seq<seq<(K, V)>>)
    requires ValidComparator(job.comparator) && ReadsAValue(job.reducer) && i < reducersCount
    requires ReduceLoop(job, dir, name, mappersCount, i, outDir, merged)
    ensures r.Err? ==>
              ReducePhaseOutcome(dir, name, mappersCount, reducersCount, job.interKey, job.interValue) == Err(r.error)
    ensures r.Ok? ==> ReduceLoop(job, dir, name, mappersCount, i + 1, r.value, merged')
  {
    var paths := Column(name, mappersCount, i);
    var res, records := ExecuteReduceTask(dir, paths, i, job.interKey, job.interValue, job.comparator,
                                          job.reducer, job.outKey, job.outValue);
    if res.Err? {
      ReducePhaseFailsAt(dir, name, mappersCount, i, reducersCount, job.interKey, job.interValue);
      return Err(Rethrown(res.error)), merged;
    }
    ReduceLoopNext(job, dir, name, mappersCount, i, outDir, merged, records, res.value.1);
    r, merged' := Ok(outDir[res.value.0 := res.value.1]), merged + [records];
  }

  /**
   * The second loop of `run`: reduce task `i` reads file `name(k, i)` of
   * every map task `k` from the mappers' output directory `dir` and writes
   * "output-{i}.txt" to `outDir`.
   */
  method ReducePhase<K(==,!new), V, KO, VO>(job: Job<K, V, KO, VO>, dir: Directory, name: (int, int) -> string,
                                            mappersCount: int, reducersCount: int, outDir: Directory)
    returns (r: Result<Directory>, ghost merged: seq<seq<(K, V)>>)
    requires ValidComparator(job.comparator) && ReadsAValue(job.reducer)
    ensures var outcome := ReducePhaseOutcome(dir, name, mappersCount, reducersCount, job.interKey, job.interValue);
            && (r.Ok? <==> outcome.Ok?)
            && (r.Err? ==> r.error == outcome.error)
    ensures r.Ok? ==>
              ReduceLoop(job, dir, name, mappersCount, if reducersCount > 0 then reducersCount else 0, r.value, merged)
  {
    var out := outDir;
    merged := [];
    ghost var n := if reducersCount > 0 then reducersCount else 0;
    var i := 0;
    while i < reducersCount
      invariant i <= n
      invariant ReduceLoop(job, dir, name, mappersCount, i, out, merged)
      decreases reducersCount - i
    {
      var res;
      res, merged := ReduceNext(job, dir, name, mappersCount, reducersCount, i, out, merged);
      if res.Err? {
        return Err(res.error), [];
      }
      out := res.value;
      i := i + 1;
    }
    r := Ok(out);
  }

  // ------------------------------------------------ what the whole run computes

  /** The input files with their lines, in order. */
  function Contents(dir: Directory, paths: seq<string>): (r: seq<(string, seq<string>)>)
    requires forall j :: 0 <= j < |paths| ==> paths[j] in dir
    ensures |r| == |paths| && forall j :: 0 <= j < |paths| ==> r[j] == (paths[j], dir[paths[j]])
  {
    seq(|paths|, j requires 0 <= j < |paths| => (paths[j], dir[paths[j]]))
  }

  /** Tasks that each read their own paths read, together, all the paths of all tasks. */
  lemma {:induction false} ReadIsContents(dir: Directory, tasks: seq<seq<string>>,
                                          read: seq<seq<(string, seq<string>)>>)
    requires |read| == |tasks|
    requires forall k :: 0 <= k < |tasks| ==>
               && |read[k]| == |tasks[k]|
               && forall j :: 0 <= j < |tasks[k]| ==> tasks[k][j] in dir && read[k][j] == (tasks[k][j], dir[tasks[k][j]])
    ensures forall j :: 0 <= j < |Flatten(tasks)| ==> Flatten(tasks)[j] in dir
    ensures Flatten(read) == Contents(dir, Flatten(tasks))
  {
    if |tasks| > 0 {
      ReadIsContents(dir, tasks[1..], read[1..]);
      var first, rest := tasks[0], Flatten(tasks[1..]);
      assert Flatten(tasks) == first + rest;
      assert Flatten(read) == read[0] + Flatten(read[1..]);
      forall j | 0 <= j < |first + rest|
        ensures (first + rest)[j] in dir
        ensures Flatten(read)[j] == ((first + rest)[j], dir[(first + rest)[j]])
      {
        if j >= |first| {
          assert (first + rest)[j] == rest[j - |first|];
          assert Flatten(read)[j] == Flatten(read[1..])[j - |first|];
        }
      }
    }
  }

  /** A successful map phase read every input file, each once, in input order. */
  lemma MapPhaseReadsInputs<K, V>(dir: Directory, inputs: seq<string>, mappersCount: int, reducersCount: int,
                                  hasher: Hasher<K>, mapper: Mapper<K, V>,
                                  kc: Codec<K>, vc: Codec<V>)
    requires mappersCount >= 1
    requires MapPhaseOutcome(dir, Assignment(inputs, mappersCount), reducersCount, hasher, mapper, kc, vc).Ok?
    ensures forall j :: 0 <= j < |inputs| ==> inputs[j] in dir
    ensures Flatten(MapPhaseOutcome(dir, Assignment(inputs, mappersCount), reducersCount, hasher, mapper, kc, vc).value)
            == Contents(dir, inputs)
  {
    var tasks := Assignment(inputs, mappersCount);
    var read := MapPhaseOutcome(dir, tasks, reducersCount, hasher, mapper, kc, vc).value;
    MapPhaseOk(dir, tasks, reducersCount, hasher, mapper, kc, vc);
    forall k | 0 <= k < |tasks|
      ensures |read[k]| == |tasks[k]|
      ensures forall j :: 0 <= j < |tasks[k]| ==> tasks[k][j] in dir && read[k][j] == (tasks[k][j], dir[tasks[k][j]])
    {
      MapOutcomeOk(dir, tasks[k], hasher, reducersCount, mapper);
    }
    ReadIsContents(dir, tasks, read);
    AssignmentCovers(inputs, mappersCount);
  }

  /** Every path of every task is among all the paths. */
  lemma {:induction false} FlattenHas<T>(ss: seq<seq<T>>, k: nat, j: nat)
    requires k < |ss| && j < |ss[k]|
    ensures ss[k][j] in Flatten(ss)
  {
    assert Flatten(ss) == ss[0] + Flatten(ss[1..]);
    if k > 0 {
      assert ss[k] == ss[1..][k - 1];
      FlattenHas(ss[1..], k - 1, j);
    } else {
      assert Flatten(ss)[j] == ss[0][j];
    }
  }

  /** The mapper's emissions over all the tasks' files read back exactly when each task's do. */
  lemma {:induction false} ReadableEmissions<K, V>(read: seq<seq<(string, seq<string>)>>, mapper: Mapper<K, V>,
                                                   kc: Codec<K>, vc: Codec<V>)
    ensures Readable(MapAll(Flatten(read), mapper), kc, vc)
        <==> forall k :: 0 <= k < |read| ==> Readable(MapAll(read[k], mapper), kc, vc)
  {
    if |read| > 0 {
      ReadableEmissions(read[1..], mapper, kc, vc);
      MapAllAppend(read[0], Flatten(read[1..]), mapper);
      ReadableAppend(MapAll(read[0], mapper), MapAll(Flatten(read[1..]), mapper), kc, vc);
      if forall k :: 0 <= k < |read| ==> Readable(MapAll(read[k], mapper), kc, vc) {
        forall k | 0 <= k < |read[1..]|
          ensures Readable(MapAll(read[1..][k], mapper), kc, vc)
        {
          assert read[1..][k] == read[k + 1];
        }
      } else {
        var k :| 0 <= k < |read| && !Readable(MapAll(read[k], mapper), kc, vc);
        if k > 0 {
          assert read[1..][k - 1] == read[k];
        }
      }
    }
  }

  /**
   * With every input present and 1 to 2^30 reducers, the map phase succeeds
   * exactly when every record the mapper emits over the inputs reads back
   * from a dump, as it always does with line-safe codecs; otherwise it fails
   * on a dump that does not read back.
   */
  lemma MapPhaseOfPresentInputs<K(!new), V(!new)>(dir: Directory, inputs: seq<string>, mappersCount: int,
                                                  reducersCount: int, hasher: Hasher<K>, mapper: Mapper<K, V>,
                                                  kc: Codec<K>, vc: Codec<V>)
    requires 1 <= reducersCount <= 0x4000_0000
    requires forall j :: 0 <= j < |inputs| ==> inputs[j] in dir
    ensures MapPhaseOutcome(dir, Assignment(inputs, mappersCount), reducersCount, hasher, mapper, kc, vc).Ok?
        <==> mappersCount < 1 || Readable(MapAll(Contents(dir, inputs), mapper), kc, vc)
    ensures MapPhaseOutcome(dir, Assignment(inputs, mappersCount), reducersCount, hasher, mapper, kc, vc).Err? ==>
              ReadBackFailure(MapPhaseOutcome(dir, Assignment(inputs, mappersCount), reducersCount,
                                              hasher, mapper, kc, vc).error)
    ensures LineSafe(kc, vc) ==>
              MapPhaseOutcome(dir, Assignment(inputs, mappersCount), reducersCount, hasher, mapper, kc, vc).Ok?
  {
    var tasks := Assignment(inputs, mappersCount);
    if mappersCount >= 1 {
      AssignmentCovers(inputs, mappersCount);
      forall k, j | 0 <= k < |tasks| && 0 <= j < |tasks[k]|
        ensures tasks[k][j] in dir
      {
        FlattenHas(tasks, k, j);
      }
      var read := seq(|tasks|, k requires 0 <= k < |tasks| => Contents(dir, tasks[k]));
      forall k | 0 <= k < |tasks|
        ensures MapTaskOk(dir, tasks[k], hasher, reducersCount, mapper, kc, vc)
            <==> Readable(MapAll(read[k], mapper), kc, vc)
      {
        MapTaskSucceeds(dir, tasks[k], hasher, reducersCount, mapper, kc, vc);
        MapOutcomeOk(dir, tasks[k], hasher, reducersCount, mapper);
        assert MapOutcome(dir, tasks[k], hasher, reducersCount, mapper).value == read[k];
      }
      ReadIsContents(dir, tasks, read);
      ReadableEmissions(read, mapper, kc, vc);
    }
    MapPhaseSucceeds(dir, tasks, reducersCount, hasher, mapper, kc, vc);
  }

  /** Below 2^30 reducers, a map task can only fail on a missing input file. */
  lemma {:induction false} MapOutcomeFailsOnIO<K, V>(dir: Directory, paths: seq<string>, hasher: Hasher<K>, n: int,
                                                     mapper: Mapper<K, V>)
    requires 1 <= n <= 0x4000_0000 && MapOutcome(dir, paths, hasher, n, mapper).Err?
    ensures MapOutcome(dir, paths, hasher, n, mapper).error.IO?
  {
    var init, path := paths[..|paths| - 1], paths[|paths| - 1];
    if MapOutcome(dir, init, hasher, n, mapper).Err? {
      MapOutcomeFailsOnIO(dir, init, hasher, n, mapper);
    } else if path in dir {
      RoutableUpTo2p30(hasher, n, mapper(InputPairs(path, dir[path])));
    }
  }

  /**
   * ... so a failed map phase fails with the RuntimeException the runner
   * rethrows, or on a dump that does not read back, which line-safe codecs
   * rule out.
   */
  lemma {:induction false} MapPhaseFailsOnIO<K(!new), V(!new)>(dir: Directory, tasks: seq<seq<string>>,
                                                               reducersCount: int, hasher: Hasher<K>,
                                                               mapper: Mapper<K, V>, kc: Codec<K>, vc: Codec<V>)
    requires 1 <= reducersCount <= 0x4000_0000
    requires MapPhaseOutcome(dir, tasks, reducersCount, hasher, mapper, kc, vc).Err?
    ensures var e := MapPhaseOutcome(dir, tasks, reducersCount, hasher, mapper, kc, vc).error;
            e == Runtime("") || (ReadBackFailure(e) && !LineSafe(kc, vc))
  {
    var init, last := tasks[..|tasks| - 1], tasks[|tasks| - 1];
    if MapPhaseOutcome(dir, init, reducersCount, hasher, mapper, kc, vc).Err? {
      MapPhaseFailsOnIO(dir, init, reducersCount, hasher, mapper, kc, vc);
    } else if MapOutcome(dir, last, hasher, reducersCount, mapper).Err? {
      MapOutcomeFailsOnIO(dir, last, hasher, reducersCount, mapper);
    } else {
      var emitted := MapAll(MapOutcome(dir, last, hasher, reducersCount, mapper).value, mapper);
      assert ' ' !in UnreadLine(emitted, kc, vc);
      if LineSafe(kc, vc) {
        LineSafeReadsBack(emitted, kc, vc);
      }
    }
  }

  /** For reducer `i`, the share of every map task's emissions, task by task. */
  function RoutedShares<K, V>(read: seq<seq<(string, seq<string>)>>, mapper: Mapper<K, V>, dest: K -> int, i: int)
    : (r: seq<seq<(K, V)>>)
    ensures |r| == |read| && forall k :: 0 <= k < |read| ==> r[k] == Routed(MapAll(read[k], mapper), dest, i)
  {
    seq(|read|, k requires 0 <= k < |read| => Routed(MapAll(read[k], mapper), dest, i))
  }

  /** Routing the emissions over all files is routing them task by task. */
  lemma {:induction false} RoutedFlatten<K, V>(read: seq<seq<(string, seq<string>)>>, mapper: Mapper<K, V>,
                                               dest: K -> int, i: int)
    ensures Routed(MapAll(Flatten(read), mapper), dest, i) == Flatten(RoutedShares(read, mapper, dest, i))
  {
    if |read| > 0 {
      RoutedFlatten(read[1..], mapper, dest, i);
      MapAllAppend(read[0], Flatten(read[1..]), mapper);
      RoutedAppend(MapAll(read[0], mapper), MapAll(Flatten(read[1..]), mapper), dest, i);
      assert RoutedShares(read, mapper, dest, i)[1..] == RoutedShares(read[1..], mapper, dest, i);
    }
  }

  /** What every map task wrote for reducer `i`, task by task. */
  function Share<K, V>(shares: seq<seq<seq<(K, V)>>>, i: int): (r: seq<seq<(K, V)>>)
    requires 0 <= i && forall k :: 0 <= k < |shares| ==> i < |shares[k]|
    ensures |r| == |shares| && forall k :: 0 <= k < |shares| ==> r[k] == shares[k][i]
  {
    seq(|shares|, k requires 0 <= k < |shares| => shares[k][i])
  }

  /** The files holding `runs`, as the reader sees their lines. */
  function Texts<K, V>(runs: seq<seq<(K, V)>>, kc: Codec<K>, vc: Codec<V>): (r: seq<seq<string>>)
    ensures |r| == |runs| && forall k :: 0 <= k < |runs| ==> r[k] == FileLines(Lines(runs[k], kc, vc))
  {
    seq(|runs|, k requires 0 <= k < |runs| => FileLines(Lines(runs[k], kc, vc)))
  }

  /** Files written from runs of records parse as the runs read back: to their records, or to the first bad line. */
  lemma {:induction false} ParseWritten<K, V>(runs: seq<seq<(K, V)>>, kc: Codec<K>, vc: Codec<V>)
    ensures ParseAll(Texts(runs, kc, vc), kc, vc) == ReadBack(runs, kc, vc)
  {
    if |runs| > 0 {
      var n := |runs| - 1;
      var files, init := Texts(runs, kc, vc), Texts(runs[..n], kc, vc);
      forall k | 0 <= k < n ensures files[..n][k] == init[k] {
        assert runs[..n][k] == runs[k];
      }
      assert files[..n] == init;
      ParseWritten(runs[..n], kc, vc);
      assert ReadAll(files[n], kc, vc) == ReadRun(runs[n], kc, vc);
    }
  }

  /** Reduce task `i` of the corrected runner opens the file every map task wrote for it. */
  lemma ColumnOpens<K, V>(dir: Directory, shares: seq<seq<seq<(K, V)>>>, i: int, kc: Codec<K>, vc: Codec<V>)
    requires AllOutputsIn(dir, shares, kc, vc)
    requires 0 <= i && forall k :: 0 <= k < |shares| ==> i < |shares[k]|
    ensures OpenAll(dir, Column(MapperOutputName, |shares|, i)) == Ok(Texts(Share(shares, i), kc, vc))
  {
    var paths := Column(MapperOutputName, |shares|, i);
    var texts := Texts(Share(shares, i), kc, vc);
    forall k | 0 <= k < |paths|
      ensures OpenFile(dir, paths[k]).Ok? && dir[paths[k]] == texts[k]
    {
      assert paths[k] == MapperOutputName(k, i);
      assert OutputsIn(dir, k, shares[k], kc, vc);
      MapperOutputNameIsText(k, i);
    }
    var files := OpenAll(dir, paths).value;
    assert |files| == |texts|;
    assert forall k :: 0 <= k < |texts| ==> files[k] == texts[k];
    assert files == texts;
  }

  /**
   * Reduce task `i` of the corrected runner loads, from every map task `k`,
   * the records that task wrote for it, as they read back from its lines.
   */
  lemma ColumnLoads<K, V>(dir: Directory, shares: seq<seq<seq<(K, V)>>>, i: int, kc: Codec<K>, vc: Codec<V>)
    requires AllOutputsIn(dir, shares, kc, vc)
    requires 0 <= i && forall k :: 0 <= k < |shares| ==> i < |shares[k]|
    ensures LoadInputs(dir, Column(MapperOutputName, |shares|, i), kc, vc) == ReadBack(Share(shares, i), kc, vc)
  {
    ColumnOpens(dir, shares, i, kc, vc);
    ParseWritten(Share(shares, i), kc, vc);
  }

  /** Reduce task `i` loads its inputs exactly when every file the map tasks wrote for it reads back. */
  lemma ColumnReadable<K, V>(dir: Directory, shares: seq<seq<seq<(K, V)>>>, i: int, kc: Codec<K>, vc: Codec<V>)
    requires AllOutputsIn(dir, shares, kc, vc)
    requires 0 <= i && forall k :: 0 <= k < |shares| ==> i < |shares[k]|
    ensures LoadInputs(dir, Column(MapperOutputName, |shares|, i), kc, vc).Ok?
        <==> forall k :: 0 <= k < |shares| ==> Readable(shares[k][i], kc, vc)
    ensures LoadInputs(dir, Column(MapperOutputName, |shares|, i), kc, vc).Err? ==>
              exists line :: ' ' !in line && Rethrown(LoadInputs(dir, Column(MapperOutputName, |shares|, i), kc, vc).error)
                                             == BadLine(line)
  {
    ColumnLoads(dir, shares, i, kc, vc);
    var share := Share(shares, i);
    if !ReadBack(share, kc, vc).Ok? {
      var k :| 0 <= k < |share| && !Readable(share[k], kc, vc);
      assert !Readable(shares[k][i], kc, vc);
    }
  }

  /** The first of `results` that failed, rethrown as the runner does; `Ok(())` when none did. */
  function FirstFailure<T>(results: seq<Result<T>>): (r: Result<()>)
    ensures r.Ok? <==> forall j :: 0 <= j < |results| ==> results[j].Ok?
    ensures r.Err? ==> exists j :: 0 <= j < |results| && results[j].Err? && r.error == Rethrown(results[j].error)
  {
    if |results| == 0 then Ok(())
    else
      var init, last := results[..|results| - 1], results[|results| - 1];
      assert forall j :: 0 <= j < |init| ==> init[j] == results[j];
      match FirstFailure(init)
      case Err(e) => Err(e)
      case Ok(_) => if last.Err? then Err(Rethrown(last.error)) else Ok(())
  }

  /** What each of the first `n` reduce tasks loads. */
  function Loads<K, V>(dir: Directory, name: (int, int) -> string, mappersCount: int, n: int,
                       kc: Codec<K>, vc: Codec<V>): (r: seq<Result<seq<seq<(K, V)>>>>)
    ensures |r| == if n > 0 then n else 0
    ensures forall j :: 0 <= j < |r| ==> r[j] == LoadInputs(dir, Column(name, mappersCount, j), kc, vc)
  {
    seq(if n > 0 then n else 0, j => LoadInputs(dir, Column(name, mappersCount, j), kc, vc))
  }

  /** The reduce phase stops at the first task that fails to load its inputs. */
  lemma {:induction false} ReducePhaseIsFirstFailure<K, V>(dir: Directory, name: (int, int) -> string,
                                                           mappersCount: int, n: int, kc: Codec<K>, vc: Codec<V>)
    ensures ReducePhaseOutcome(dir, name, mappersCount, n, kc, vc)
            == FirstFailure(Loads(dir, name, mappersCount, n, kc, vc))
    decreases n
  {
    if n > 0 {
      ReducePhaseIsFirstFailure(dir, name, mappersCount, n - 1, kc, vc);
      var all, before := Loads(dir, name, mappersCount, n, kc, vc), Loads(dir, name, mappersCount, n - 1, kc, vc);
      assert all[..n - 1] == before;
    }
  }

  /**
   * The first `n` reduce tasks succeed exactly when each loads its inputs;
   * else the phase fails with one task's (rethrown) error.
   */
  lemma ReducePhaseLoads<K, V>(dir: Directory, name: (int, int) -> string, mappersCount: int,
                               n: int, kc: Codec<K>, vc: Codec<V>)
    ensures ReducePhaseOutcome(dir, name, mappersCount, n, kc, vc).Ok?
        <==> forall j :: 0 <= j < n ==> LoadInputs(dir, Column(name, mappersCount, j), kc, vc).Ok?
    ensures ReducePhaseOutcome(dir, name, mappersCount, n, kc, vc).Err? ==>
              exists j :: 0 <= j < n && LoadInputs(dir, Column(name, mappersCount, j), kc, vc).Err?
                && ReducePhaseOutcome(dir, name, mappersCount, n, kc, vc).error
                   == Rethrown(LoadInputs(dir, Column(name, mappersCount, j), kc, vc).error)
  {
    ReducePhaseIsFirstFailure(dir, name, mappersCount, n, kc, vc);
  }

  /**
   * The corrected runner's first `n` reduce tasks all load their inputs
   * exactly when every file the map tasks wrote for them reads back; else
   * a bad line ends the phase.
   */
  lemma ReducePhaseLoadsShares<K, V>(dir: Directory, shares: seq<seq<seq<(K, V)>>>, n: int,
                                     kc: Codec<K>, vc: Codec<V>)
    requires AllOutputsIn(dir, shares, kc, vc)
    requires 0 <= n && forall k :: 0 <= k < |shares| ==> n <= |shares[k]|
    ensures ReducePhaseOutcome(dir, MapperOutputName, |shares|, n, kc, vc).Ok?
        <==> forall k, j :: 0 <= k < |shares| && 0 <= j < n ==> Readable(shares[k][j], kc, vc)
    ensures ReducePhaseOutcome(dir, MapperOutputName, |shares|, n, kc, vc).Err? ==>
              exists line :: ' ' !in line && ReducePhaseOutcome(dir, MapperOutputName, |shares|, n, kc, vc).error
                                             == BadLine(line)
  {
    ReducePhaseIsFirstFailure(dir, MapperOutputName, |shares|, n, kc, vc);
    LoadsReadable(dir, shares, n, kc, vc);
  }

  /** Loading the first `n` columns stops at a bad line, and only when some share does not read back. */
  lemma LoadsReadable<K, V>(dir: Directory, shares: seq<seq<seq<(K, V)>>>, n: int, kc: Codec<K>, vc: Codec<V>)
    requires AllOutputsIn(dir, shares, kc, vc)
    requires 0 <= n && forall k :: 0 <= k < |shares| ==> n <= |shares[k]|
    ensures FirstFailure(Loads(dir, MapperOutputName, |shares|, n, kc, vc)).Ok?
        <==> forall k, j :: 0 <= k < |shares| && 0 <= j < n ==> Readable(shares[k][j], kc, vc)
    ensures FirstFailure(Loads(dir, MapperOutputName, |shares|, n, kc, vc)).Err? ==>
              BadLineError(FirstFailure(Loads(dir, MapperOutputName, |shares|, n, kc, vc)).error)
  {
    ColumnsReadable(dir, shares, n, kc, vc);
    var loads := Loads(dir, MapperOutputName, |shares|, n, kc, vc);
    FirstFailureOfBadLines(loads);
    ReadableByColumn(seq(n, j requires 0 <= j < n => loads[j].Ok?), shares, kc, vc);
  }

  /** Each of the first `n` reduce tasks loads its inputs exactly when every file written for it reads back. */
  lemma ColumnsReadable<K, V>(dir: Directory, shares: seq<seq<seq<(K, V)>>>, n: int, kc: Codec<K>, vc: Codec<V>)
    requires AllOutputsIn(dir, shares, kc, vc)
    requires 0 <= n && forall k :: 0 <= k < |shares| ==> n <= |shares[k]|
    ensures forall j :: 0 <= j < n ==>
              (Loads(dir, MapperOutputName, |shares|, n, kc, vc)[j].Ok?
               <==> forall k :: 0 <= k < |shares| ==> Readable(shares[k][j], kc, vc))
    ensures forall j :: 0 <= j < n && Loads(dir, MapperOutputName, |shares|, n, kc, vc)[j].Err? ==>
              BadLineError(Rethrown(Loads(dir, MapperOutputName, |shares|, n, kc, vc)[j].error))
  {
    forall j | 0 <= j < n
      ensures LoadInputs(dir, Column(MapperOutputName, |shares|, j), kc, vc).Ok?
          <==> forall k :: 0 <= k < |shares| ==> Readable(shares[k][j], kc, vc)
      ensures LoadInputs(dir, Column(MapperOutputName, |shares|, j), kc, vc).Err? ==>
                exists line :: ' ' !in line
                  && Rethrown(LoadInputs(dir, Column(MapperOutputName, |shares|, j), kc, vc).error) == BadLine(line)
    {
      ColumnReadable(dir, shares, j, kc, vc);
    }
  }

  /** When every failure is a bad line, so is the first. */
  lemma FirstFailureOfBadLines<T>(results: seq<Result<T>>)
    requires forall j :: 0 <= j < |results| && results[j].Err? ==> BadLineError(Rethrown(results[j].error))
    ensures FirstFailure(results).Err? ==> BadLineError(FirstFailure(results).error)
  {
  }

  /** Without map tasks, every reduce task reads no file and so no record. */
  lemma {:induction false} NoMapTasks<K(!new), V, KO, VO>(job: Job<K, V, KO, VO>, dir: Directory,
                                                          name: (int, int) -> string, mappersCount: int, n: int,
                                                          outDir: Directory, merged: seq<seq<(K, V)>>)
    requires mappersCount <= 0 && ReduceLoop(job, dir, name, mappersCount, n, outDir, merged)
    ensures forall i :: 0 <= i < n ==> merged[i] == []
  {
    forall i | 0 <= i < n
      ensures merged[i] == []
    {
      assert ReduceDone(job, dir, name, mappersCount, i, outDir, merged[i]);
      assert Column(name, mappersCount, i) == [];
      assert multiset(merged[i]) == multiset{};
    }
  }

  /**
   * What reduce task `i` of the corrected runner reduces: with line-safe
   * codecs, exactly the records the mapper emitted over all the input files
   * that route to `i`, sorted by key.
   */
  lemma ReducedShare<K(!new), V(!new), KO, VO>(job: Job<K, V, KO, VO>, inputDir: Directory, inputs: seq<string>,
                                               mappersCount: int, reducersCount: int, dir: Directory,
                                               shares: seq<seq<seq<(K, V)>>>, i: int, outDir: Directory,
                                               merged: seq<(K, V)>)
    requires mappersCount >= 1 && 0 <= i < reducersCount && LineSafe(job.interKey, job.interValue)
    requires MapPhaseOutcome(inputDir, Assignment(inputs, mappersCount), reducersCount, job.hasher, job.mapper, job.interKey, job.interValue).Ok?
    requires |shares| == mappersCount && AllOutputsIn(dir, shares, job.interKey, job.interValue)
    requires forall k :: 0 <= k < |shares| ==> |shares[k]| == reducersCount
    requires SharesRouted(shares,
                          MapPhaseOutcome(inputDir, Assignment(inputs, mappersCount), reducersCount,
                                          job.hasher, job.mapper, job.interKey, job.interValue).value,
                          reducersCount, job.comparator, job.hasher, job.mapper)
    requires ReduceDone(job, dir, MapperOutputName, mappersCount, i, outDir, merged)
    ensures forall j :: 0 <= j < |inputs| ==> inputs[j] in inputDir
    ensures SortedByKey(merged, job.comparator)
    ensures multiset(merged)
            == multiset(Routed(MapAll(Contents(inputDir, inputs), job.mapper), Destination(job.hasher, reducersCount), i))
  {
    var kc, vc := job.interKey, job.interValue;
    var read := MapPhaseOutcome(inputDir, Assignment(inputs, mappersCount), reducersCount, job.hasher, job.mapper, job.interKey, job.interValue).value;
    var dest := Destination(job.hasher, reducersCount);
    MapPhaseReadsInputs(inputDir, inputs, mappersCount, reducersCount, job.hasher, job.mapper,
                        job.interKey, job.interValue);
    ColumnLoads(dir, shares, i, kc, vc);
    ReadBackLineSafe(Share(shares, i), kc, vc);
    var loaded := Share(shares, i);
    var routed := RoutedShares(read, job.mapper, dest, i);
    forall k | 0 <= k < |loaded|
      ensures SortedByKey(loaded[k], job.comparator)
      ensures multiset(loaded[k]) == multiset(routed[k])
    {
      assert TaskShares(shares[k], read[k], reducersCount, job.comparator, job.hasher, job.mapper);
    }
    FlattenSameRecords(loaded, routed);
    RoutedFlatten(read, job.mapper, dest, i);
  }

  /** With no reducers, the first map task fails on its empty sink list. */
  lemma MapPhaseNoReducers<K, V>(dir: Directory, tasks: seq<seq<string>>, reducersCount: int,
                                 hasher: Hasher<K>, mapper: Mapper<K, V>,
                                 kc: Codec<K>, vc: Codec<V>)
    requires |tasks| >= 1 && reducersCount <= 0
    ensures MapPhaseOutcome(dir, tasks, reducersCount, hasher, mapper, kc, vc)
            == Err(IllegalArgument("Sink list cannot be null or empty."))
  {
    assert tasks[..1][..0] == [];
    MapPhasePrefix(dir, tasks, reducersCount, hasher, mapper, kc, vc, 1);
  }

  /** Without map tasks, every reduce task opens no file and succeeds. */
  lemma {:induction false} ReducePhaseWithoutMaps<K, V>(dir: Directory, name: (int, int) -> string,
                                                        mappersCount: int, n: int, kc: Codec<K>, vc: Codec<V>)
    requires mappersCount <= 0
    ensures ReducePhaseOutcome(dir, name, mappersCount, n, kc, vc) == Ok(())
    decreases n
  {
    if n > 0 {
      ReducePhaseWithoutMaps(dir, name, mappersCount, n - 1, kc, vc);
      assert Column(name, mappersCount, n - 1) == [];
    }
  }

  // ------------------------------------------------------------------- the job

  /** The name `run` gives, as written, to reducer `i`'s input from map task `k`. */
  function ZipName(k: int, i: int): string {
    "mapper-output-" + IntToString(k) + "-" + IntToString(i) + ".zip"
  }

  /**
   * As written, a reduce task with at least one map task fails on an I/O
   * error: the first name it opens ends in `.zip`, so either no such file
   * exists or it is not a plain text file.
   */
  lemma ZipColumnFails<K, V>(dir: Directory, mappersCount: int, i: int, kc: Codec<K>, vc: Codec<V>)
    requires mappersCount >= 1
    ensures LoadInputs(dir, Column(ZipName, mappersCount, i), kc, vc).Err?
    ensures LoadInputs(dir, Column(ZipName, mappersCount, i), kc, vc).error.IO?
  {
    var paths := Column(ZipName, mappersCount, i);
    var s := paths[0];
    assert s == ZipName(0, i);
    assert s[|s| - 4..] == ".zip";
    OpenAllFirstError(dir, paths, 0);
  }

  /**
   * As written, the reduce phase fails as soon as there is a map task and a
   * reducer: the first reduce task's I/O error is rethrown unchecked.
   */
  lemma ZipReducePhaseFails<K, V>(dir: Directory, mappersCount: int, reducersCount: int, kc: Codec<K>, vc: Codec<V>)
    requires mappersCount >= 1 && reducersCount >= 1
    ensures ReducePhaseOutcome(dir, ZipName, mappersCount, reducersCount, kc, vc) == Err(Runtime(""))
  {
    ZipColumnFails(dir, mappersCount, 0, kc, vc);
    assert ReducePhaseOutcome(dir, ZipName, mappersCount, 0, kc, vc) == Ok(());
    ReducePhaseFailsAt(dir, ZipName, mappersCount, 0, reducersCount, kc, vc);
  }

  /**
   * `run` as written: the map phase, then the reduce phase over the `.zip`
   * names. Returns the mappers' output directory and the output directory.
   * Once a map task and a reducer exist, the job fails after its map phase.
   */
  method RunAsWritten<K(==,!new), V(!new), KO, VO>(job: Job<K, V, KO, VO>, inputDir: Directory, inputs: seq<string>,
                                                   mappersCount: int, reducersCount: int, sorterRecords: int,
                                                   mapDir: Directory, outDir: Directory)
    returns (r: Result<(Directory, Directory)>)
    requires ValidComparator(job.comparator) && ReadsAValue(job.reducer) && IsInt32(reducersCount)
    ensures var outcome := MapPhaseOutcome(inputDir, Assignment(inputs, mappersCount), reducersCount,
                                           job.hasher, job.mapper, job.interKey, job.interValue);
            && (outcome.Err? ==> r.Err? && SameFailure(r.error, outcome.error))
            && (outcome.Ok? && mappersCount >= 1 && reducersCount >= 1 ==> r == Err(Runtime("")))
            && (outcome.Ok? && mappersCount <= 0 ==> r.Ok?)
  {
    var mapped, shares := MapPhase(job, inputDir, inputs, mappersCount, reducersCount, sorterRecords, mapDir);
    if mapped.Err? {
      return Err(mapped.error);
    }
    if mappersCount >= 1 && reducersCount >= 1 {
      ZipReducePhaseFails(mapped.value, mappersCount, reducersCount, job.interKey, job.interValue);
    } else if mappersCount <= 0 {
      ReducePhaseWithoutMaps(mapped.value, ZipName, mappersCount, reducersCount, job.interKey, job.interValue);
    }
    var reduced, merged := ReducePhase(job, mapped.value, ZipName, mappersCount, reducersCount, outDir);
    if reduced.Err? {
      return Err(reduced.error);
    }
    r := Ok((mapped.value, reduced.value));
  }

  /**
   * After a successful map phase, the corrected reduce phase loads every
   * column exactly when every file the map tasks wrote reads back; else it
   * fails on a bad line.
   */
  lemma ReducePhaseAfterMap<K, V>(dir: Directory, shares: seq<seq<seq<(K, V)>>>, mappersCount: int,
                                  reducersCount: int, kc: Codec<K>, vc: Codec<V>)
    requires |shares| == (if mappersCount > 0 then mappersCount else 0) && AllOutputsIn(dir, shares, kc, vc)
    requires forall k :: 0 <= k < |shares| ==> |shares[k]| == reducersCount
    ensures ReducePhaseOutcome(dir, MapperOutputName, mappersCount, reducersCount, kc, vc).Ok?
        <==> forall k, j :: 0 <= k < |shares| && 0 <= j < |shares[k]| ==> Readable(shares[k][j], kc, vc)
    ensures ReducePhaseOutcome(dir, MapperOutputName, mappersCount, reducersCount, kc, vc).Err? ==>
              exists line :: ' ' !in line && ReducePhaseOutcome(dir, MapperOutputName, mappersCount, reducersCount,
                                                                 kc, vc).error == BadLine(line)
  {
    if mappersCount <= 0 {
      ReducePhaseWithoutMaps(dir, MapperOutputName, mappersCount, reducersCount, kc, vc);
    } else {
      assert |shares[0]| == reducersCount;
      ReducePhaseLoadsShares(dir, shares, reducersCount, kc, vc);
    }
  }

  /**
   * How the map phase of the job fails: on the empty sink list without
   * reducers; below 2^30 reducers, on a missing input file, or on a dump that
   * does not read back, which line-safe codecs rule out.
   */
  lemma MapPhaseErrors<K(!new), V(!new)>(dir: Directory, inputs: seq<string>, mappersCount: int,
                                         reducersCount: int, hasher: Hasher<K>, mapper: Mapper<K, V>,
                                         kc: Codec<K>, vc: Codec<V>)
    requires MapPhaseOutcome(dir, Assignment(inputs, mappersCount), reducersCount, hasher, mapper, kc, vc).Err?
    ensures mappersCount >= 1 && reducersCount <= 0 ==>
              MapPhaseOutcome(dir, Assignment(inputs, mappersCount), reducersCount, hasher, mapper, kc, vc).error
              == IllegalArgument("Sink list cannot be null or empty.")
    ensures 1 <= reducersCount <= 0x4000_0000 ==>
              var e := MapPhaseOutcome(dir, Assignment(inputs, mappersCount), reducersCount, hasher, mapper, kc, vc).error;
              || (e == Runtime("") && exists j :: 0 <= j < |inputs| && inputs[j] !in dir)
              || (ReadBackFailure(e) && !LineSafe(kc, vc))
  {
    var tasks := Assignment(inputs, mappersCount);
    if mappersCount >= 1 && reducersCount <= 0 {
      MapPhaseNoReducers(dir, tasks, reducersCount, hasher, mapper, kc, vc);
    }
    if 1 <= reducersCount <= 0x4000_0000 {
      MapPhaseFailsOnIO(dir, tasks, reducersCount, hasher, mapper, kc, vc);
      if forall j :: 0 <= j < |inputs| ==> inputs[j] in dir {
        MapPhaseOfPresentInputs(dir, inputs, mappersCount, reducersCount, hasher, mapper, kc, vc);
      }
    }
  }

  /** What the corrected job leaves in the output directory once both phases succeed. */
  lemma JobOutputs<K(!new), V(!new), KO, VO>(job: Job<K, V, KO, VO>, inputDir: Directory, inputs: seq<string>,
                                             mappersCount: int, reducersCount: int, dir: Directory,
                                             shares: seq<seq<seq<(K, V)>>>, outDir: Directory,
                                             merged: seq<seq<(K, V)>>)
    requires MapPhaseOutcome(inputDir, Assignment(inputs, mappersCount), reducersCount, job.hasher, job.mapper, job.interKey, job.interValue).Ok?
    requires |shares| == |Assignment(inputs, mappersCount)| && AllOutputsIn(dir, shares, job.interKey, job.interValue)
    requires forall k :: 0 <= k < |shares| ==> |shares[k]| == reducersCount
    requires LineSafe(job.interKey, job.interValue) ==>
               SharesRouted(shares,
                            MapPhaseOutcome(inputDir, Assignment(inputs, mappersCount), reducersCount,
                                            job.hasher, job.mapper, job.interKey, job.interValue).value,
                            reducersCount, job.comparator, job.hasher, job.mapper)
    requires ReduceLoop(job, dir, MapperOutputName, mappersCount, if reducersCount > 0 then reducersCount else 0,
                        outDir, merged)
    ensures |merged| == if reducersCount > 0 then reducersCount else 0
    ensures forall i :: 0 <= i < |merged| ==>
              && ReducerOutputName(i) in outDir
              && outDir[ReducerOutputName(i)]
                 == FileLines(Lines(ReduceOutput(merged[i], job.reducer), job.outKey, job.outValue))
    ensures mappersCount >= 1 ==> forall j :: 0 <= j < |inputs| ==> inputs[j] in inputDir
    ensures mappersCount >= 1 && LineSafe(job.interKey, job.interValue) ==>
              forall i :: 0 <= i < |merged| ==>
                && SortedByKey(merged[i], job.comparator)
                && multiset(merged[i])
                   == multiset(Routed(MapAll(Contents(inputDir, inputs), job.mapper),
                                      Destination(job.hasher, reducersCount), i))
    ensures mappersCount <= 0 ==> forall i :: 0 <= i < |merged| ==> merged[i] == []
  {
    var n := if reducersCount > 0 then reducersCount else 0;
    forall i | 0 <= i < n
      ensures ReducerOutputName(i) in outDir
      ensures outDir[ReducerOutputName(i)]
              == FileLines(Lines(ReduceOutput(merged[i], job.reducer), job.outKey, job.outValue))
    {
      assert ReduceDone(job, dir, MapperOutputName, mappersCount, i, outDir, merged[i]);
    }
    if mappersCount >= 1 {
      MapPhaseReadsInputs(inputDir, inputs, mappersCount, reducersCount, job.hasher, job.mapper,
                          job.interKey, job.interValue);
      if LineSafe(job.interKey, job.interValue) {
        forall i | 0 <= i < n
          ensures SortedByKey(merged[i], job.comparator)
          ensures multiset(merged[i])
                  == multiset(Routed(MapAll(Contents(inputDir, inputs), job.mapper),
                                     Destination(job.hasher, reducersCount), i))
        {
          assert ReduceDone(job, dir, MapperOutputName, mappersCount, i, outDir, merged[i]);
          ReducedShare(job, inputDir, inputs, mappersCount, reducersCount, dir, shares, i, outDir, merged[i]);
        }
      }
    } else {
      NoMapTasks(job, dir, MapperOutputName, mappersCount, n, outDir, merged);
    }
  }

  /**
   * `run` with the reduce tasks reading the names the map tasks write: the
   * whole job, returning the mappers' output directory and the output
   * directory. A failed map phase is the job's failure. After it, the job
   * fails only on a line without a space in a file the map tasks wrote,
   * which line-safe codecs rule out: with them (given a map task and a
   * reducer count the partitioner accepts) it succeeds exactly when every
   * input file exists, and reducer `i`'s output file holds the reduction of
   * exactly the records the mapper emits over all the inputs that route to
   * `i`, sorted by key.
   */
  method Run<K(==,!new), V(!new), KO, VO>(job: Job<K, V, KO, VO>, inputDir: Directory, inputs: seq<string>,
                                          mappersCount: int, reducersCount: int, sorterRecords: int,
                                          mapDir: Directory, outDir: Directory)
    returns (r: Result<(Directory, Directory)>, ghost merged: seq<seq<(K, V)>>)
    requires ValidComparator(job.comparator) && ReadsAValue(job.reducer) && IsInt32(reducersCount)
    ensures mappersCount >= 1 && reducersCount <= 0 ==>
              r == Err(IllegalArgument("Sink list cannot be null or empty."))
    ensures var outcome := MapPhaseOutcome(inputDir, Assignment(inputs, mappersCount), reducersCount,
                                           job.hasher, job.mapper, job.interKey, job.interValue);
            && (outcome.Err? ==> r.Err? && SameFailure(r.error, outcome.error))
            && (outcome.Ok? && r.Err? ==>
                  && !LineSafe(job.interKey, job.interValue)
                  && exists line :: ' ' !in line && r.error == BadLine(line))
    ensures mappersCount >= 1 && 1 <= reducersCount <= 0x4000_0000 && LineSafe(job.interKey, job.interValue) ==>
              (r.Ok? <==> forall j :: 0 <= j < |inputs| ==> inputs[j] in inputDir)
    ensures r.Err? && 1 <= reducersCount <= 0x4000_0000 && LineSafe(job.interKey, job.interValue) ==>
              r.error == Runtime("")
    ensures r.Ok? ==> |merged| == if reducersCount > 0 then reducersCount else 0
    ensures r.Ok? ==> forall i :: 0 <= i < |merged| ==>
              && ReducerOutputName(i) in r.value.1
              && r.value.1[ReducerOutputName(i)]
                 == FileLines(Lines(ReduceOutput(merged[i], job.reducer), job.outKey, job.outValue))
    ensures r.Ok? && mappersCount >= 1 ==> forall j :: 0 <= j < |inputs| ==> inputs[j] in inputDir
    ensures r.Ok? && mappersCount >= 1 && LineSafe(job.interKey, job.interValue) ==>
              forall i :: 0 <= i < |merged| ==>
                && SortedByKey(merged[i], job.comparator)
                && multiset(merged[i])
                   == multiset(Routed(MapAll(Contents(inputDir, inputs), job.mapper),
                                      Destination(job.hasher, reducersCount), i))
    ensures r.Ok? && mappersCount <= 0 ==> forall i :: 0 <= i < |merged| ==> merged[i] == []
  {
    var kc, vc := job.interKey, job.interValue;
    if mappersCount >= 1 && 1 <= reducersCount <= 0x4000_0000 && forall j :: 0 <= j < |inputs| ==> inputs[j] in inputDir {
      MapPhaseOfPresentInputs(inputDir, inputs, mappersCount, reducersCount, job.hasher, job.mapper, kc, vc);
    }
    var mapped, shares := MapPhase(job, inputDir, inputs, mappersCount, reducersCount, sorterRecords, mapDir);
    if mapped.Err? {
      MapPhaseErrors(inputDir, inputs, mappersCount, reducersCount, job.hasher, job.mapper, kc, vc);
      return Err(mapped.error), [];
    }
    ReducePhaseAfterMap(mapped.value, shares, mappersCount, reducersCount, kc, vc);
    if LineSafe(kc, vc) {
      forall k, j | 0 <= k < |shares| && 0 <= j < |shares[k]|
        ensures Readable(shares[k][j], kc, vc)
      {
        LineSafeReadsBack(shares[k][j], kc, vc);
      }
    }
    var reduced;
    reduced, merged := ReducePhase(job, mapped.value, MapperOutputName, mappersCount, reducersCount, outDir);
    if reduced.Err? {
      return Err(reduced.error), [];
    }
    JobOutputs(job, inputDir, inputs, mappersCount, reducersCount, mapped.value, shares, reduced.value, merged);
    if mappersCount >= 1 && reducersCount <= 0 {
      MapPhaseNoReducers(inputDir, Assignment(inputs, mappersCount), reducersCount, job.hasher, job.mapper, kc, vc);
    }
    r := Ok((mapped.value, reduced.value));
  }
}
