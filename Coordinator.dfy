/**
 * The coordinator's scheduler, shared by both coordinators: it splits the
 * input among the map tasks, queues the map and the reduce tasks, hands
 * queue heads to free workers, counts successes to move from the map phase
 * to the reduce phase and to the end of the job, and re-queues failed tasks.
 *
 * The embedded coordinator sends bare task descriptions and names the
 * intermediate files relative to the worker's own directory; the stand-alone
 * one adds the storage connection string and a target directory to every
 * task and prefixes the intermediate files with the map output directory.
 * `Layout` tells the two apart. Sending a task to a worker is a parameter
 * (`delivered`, the outcome of each attempt); waiting for workers and for
 * the end of the job, logging and the HTTP endpoint are not modelled.
 */
module Coordinators {
  import opened Wrappers
  import opened JavaString
  import opened MergedKeyValueIterators
  import opened MapReduceTasksRunner
  import opened MapReduceSequentialRunner

  datatype TaskType = MAP | REDUCE

  /** Where a stand-alone task reads and writes: the storage connection string and its output directory. */
  datatype Storage = Storage(connectionString: string, targetDir: string)

  /** A task as the coordinator sends it; its status is always `null` and is left out. */
  datatype NewTaskDetails = NewTaskDetails(taskId: int, taskType: TaskType, inputFiles: seq<string>, storage: Option<Storage>)

  /** A worker's report on a task. */
  datatype TaskDetails = TaskDetails(taskId: int, taskType: TaskType, inputFiles: seq<string>, status: string)

  datatype Phase = MapPhase | ReducePhase | JobEnded

  datatype Layout = Embedded | Standalone(mappersOutputsDir: string, outputsDir: string)

  const SUCCEED := "SUCCEED"

  // ------------------------------------------------------------------ the tasks

  /** The storage of the tasks of one type: none when embedded, else the connection string and that type's directory. */
  function StorageFor(layout: Layout, connectionString: string, t: TaskType): Option<Storage> {
    match layout
    case Embedded => None
    case Standalone(mappersOutputsDir, outputsDir) =>
      Some(Storage(connectionString, if t == MAP then mappersOutputsDir else outputsDir))
  }

  /** The map tasks: task `i` has id `i` and the `i`-th share of the input files. */
  function MapTasks(files: seq<string>, m: int, storage: Option<Storage>): (tasks: seq<NewTaskDetails>)
    ensures |tasks| == |Assignment(files, m)|
    ensures forall j :: 0 <= j < |tasks| ==> tasks[j] == NewTaskDetails(j, MAP, Assignment(files, m)[j], storage)
  {
    var shares := Assignment(files, m);
    seq(|shares|, j requires 0 <= j < |shares| => NewTaskDetails(j, MAP, shares[j], storage))
  }

  lemma ProductBounds(q: int, m: int)
    requires m >= 1
    ensures q >= 0 ==> q * m >= q
    ensures q < 0 ==> q * m <= q
  {
  }

  lemma QuotientAtMost(n: nat, m: int)
    requires m >= 1
    ensures 0 <= n / m <= n
  {
    var q, r := n / m, n % m;
    assert n == q * m + r && 0 <= r < m;
    ProductBounds(q, m);
  }

  /**
   * One round of the split loop: with p files handed out and m - i map tasks
   * to go, share i is the next (n - p) / (m - i) files and the rest are
   * split among the tasks after it.
   */
  lemma AssignmentStep(files: seq<string>, shares: seq<seq<string>>, p: nat, m: int, i: nat)
    requires p <= |files| && i < m && i < |shares| && Assignment(files[p..], m - i) == shares[i..]
    ensures var c := (|files| - p) / (m - i);
      && 0 <= c && p + c <= |files|
      && shares[i] == files[p..p + c]
      && Assignment(files[p + c..], m - (i + 1)) == shares[i + 1..]
  {
    var c := (|files| - p) / (m - i);
    QuotientAtMost(|files| - p, m - i);
    assert files[p..][..c] == files[p..p + c];
    assert files[p..][c..] == files[p + c..];
    assert shares[i + 1..] == shares[i..][1..];
  }

  /** The name under which reduce task `i` looks for what map task `k` wrote for it. */
  function ReduceInputName(layout: Layout, k: int, i: int): string {
    match layout
    case Embedded => MapperOutputName(k, i)
    case Standalone(mappersOutputsDir, _) => mappersOutputsDir + "/" + MapperOutputName(k, i)
  }

  function ReduceInputs(layout: Layout, m: int, i: int): (names: seq<string>)
    ensures |names| == if m > 0 then m else 0
    ensures forall k :: 0 <= k < |names| ==> names[k] == ReduceInputName(layout, k, i)
  {
    seq(if m > 0 then m else 0, k => ReduceInputName(layout, k, i))
  }

  /** The reduce tasks: reduce task `i` has id `m + i` and reads one file from every map task. */
  function ReduceTasks(layout: Layout, m: int, r: int, storage: Option<Storage>): (tasks: seq<NewTaskDetails>)
    ensures |tasks| == if r > 0 then r else 0
    ensures forall i :: 0 <= i < |tasks| ==> tasks[i] == NewTaskDetails(m + i, REDUCE, ReduceInputs(layout, m, i), storage)
  {
    seq(if r > 0 then r else 0, i => NewTaskDetails(m + i, REDUCE, ReduceInputs(layout, m, i), storage))
  }

  /**
   * The map tasks have ids 0..m-1, split the input files between them in
   * order without losing or repeating any, and each gets n/m or n/m + 1 of
   * the n files.
   */
  lemma MapTasksSplitInput(files: seq<string>, m: int, storage: Option<Storage>)
    requires m >= 1
    ensures var tasks := MapTasks(files, m, storage);
      && |tasks| == m
      && (forall j :: 0 <= j < m ==> tasks[j].taskId == j && tasks[j].taskType == MAP && tasks[j].storage == storage)
      && Flatten(seq(m, j requires 0 <= j < m => tasks[j].inputFiles)) == files
      && (forall j :: 0 <= j < m ==> |files| / m <= |tasks[j].inputFiles| <= |files| / m + 1)
  {
    var tasks := MapTasks(files, m, storage);
    var shares := Assignment(files, m);
    AssignmentCovers(files, m);
    AssignmentBalanced(files, m);
    assert seq(m, j requires 0 <= j < m => tasks[j].inputFiles) == shares;
  }

  /**
   * Reduce task `i` (id m + i) reads, from every map task k, the file that
   * map task writes for reducer (id - m) = i, and no two of those names
   * coincide.
   */
  lemma ReduceTasksReadMapOutputs(m: int, r: int, storage: Option<Storage>, i: int, k: int)
    requires 0 <= i < r && 0 <= k < m
    ensures var task := ReduceTasks(Embedded, m, r, storage)[i];
      && task.taskId - m == i
      && task.inputFiles[k] == MapperOutputName(k, task.taskId - m)
      && forall k' :: 0 <= k' < m && k' != k ==> task.inputFiles[k'] != task.inputFiles[k]
  {
    var names := ReduceInputs(Embedded, m, i);
    assert ReduceTasks(Embedded, m, r, storage)[i].inputFiles == names;
    forall k' | 0 <= k' < m && k' != k
      ensures names[k'] != names[k]
    {
      if names[k'] == names[k] {
        MapperOutputNameInjective(k', i, k, i);
      }
    }
  }

  /** The stand-alone coordinator's names are the same names inside the map output directory. */
  lemma StandaloneReduceInputs(dir: string, outputsDir: string, m: int, i: int, k: int)
    requires 0 <= k < m
    ensures ReduceInputs(Standalone(dir, outputsDir), m, i)[k] == dir + "/" + ReduceInputs(Embedded, m, i)[k]
  {
  }

  /**
   * The task re-queued after a failure report: the reported id, type and
   * inputs, with the storage of that type.
   */
  function Requeued(details: TaskDetails, layout: Layout, connectionString: string): NewTaskDetails {
    NewTaskDetails(details.taskId, details.taskType, details.inputFiles, StorageFor(layout, connectionString, details.taskType))
  }

  /**
   * A failure report that echoes a task the coordinator queued at the start
   * re-queues exactly that task, whatever the reported status.
   */
  lemma RequeueRestoresTask(files: seq<string>, layout: Layout, connectionString: string, m: int, r: int,
                            task: NewTaskDetails, status: string)
    requires task in MapTasks(files, m, StorageFor(layout, connectionString, MAP))
          || task in ReduceTasks(layout, m, r, StorageFor(layout, connectionString, REDUCE))
    ensures Requeued(TaskDetails(task.taskId, task.taskType, task.inputFiles, status), layout, connectionString) == task
  {
  }

  // ------------------------------------------------------------------ progress

  /** The inner loop of the split: the `count` files from index `from` on, in order. */
  method TakeFiles(inputFiles: seq<string>, from: nat, count: nat) returns (taken: seq<string>)
    requires from + count <= |inputFiles|
    ensures taken == inputFiles[from..from + count]
  {
    taken := [];
    var k := 0;
    while k < count
      invariant 0 <= k <= count
      invariant taken == inputFiles[from..from + k]
    {
      taken := taken + [inputFiles[from + k]];
      k := k + 1;
    }
  }

  /**
   * The first loop of `start`: map task i takes the next
   * (n - processed) / (m - i) of the n input files.
   */
  method SplitIntoMapTasks(inputFiles: seq<string>, m: int, storage: Option<Storage>) returns (queued: seq<NewTaskDetails>)
    ensures queued == MapTasks(inputFiles, m, storage)
  {
    ghost var shares := Assignment(inputFiles, m);
    ghost var tasks := MapTasks(inputFiles, m, storage);
    queued := [];
    var processed := 0;
    var i := 0;
    assert inputFiles[0..] == inputFiles;
    while i < m
      invariant 0 <= i <= |shares| && 0 <= processed <= |inputFiles|
      invariant Assignment(inputFiles[processed..], m - i) == shares[i..]
      invariant queued == tasks[..i]
    {
      var count := (|inputFiles| - processed) / (m - i);
      AssignmentStep(inputFiles, shares, processed, m, i);
      var inputFilesToProcess := TakeFiles(inputFiles, processed, count);
      queued := queued + [NewTaskDetails(i, MAP, inputFilesToProcess, storage)];
      assert tasks[..i + 1] == tasks[..i] + [tasks[i]];
      processed := processed + count;
      i := i + 1;
    }
    assert tasks[..i] == tasks;
  }

  /** The second loop of `start`: reduce task i names the file every map task writes for it. */
  method CollectReduceTasks(layout: Layout, m: int, r: int, storage: Option<Storage>) returns (queued: seq<NewTaskDetails>)
    ensures queued == ReduceTasks(layout, m, r, storage)
  {
    ghost var tasks := ReduceTasks(layout, m, r, storage);
    queued := [];
    var i := 0;
    while i < r
      invariant 0 <= i <= |tasks|
      invariant queued == tasks[..i]
    {
      ghost var names := ReduceInputs(layout, m, i);
      var interFilesToReduce := [];
      var k := 0;
      while k < m
        invariant 0 <= k <= |names|
        invariant interFilesToReduce == names[..k]
      {
        interFilesToReduce := interFilesToReduce + [ReduceInputName(layout, k, i)];
        k := k + 1;
      }
      assert interFilesToReduce == names;
      queued := queued + [NewTaskDetails(m + i, REDUCE, interFilesToReduce, storage)];
      assert tasks[..i + 1] == tasks[..i] + [tasks[i]];
      i := i + 1;
    }
    assert tasks[..i] == tasks;
  }

  /** The counters and the phase. */
  datatype Progress = Progress(finishedMappers: int, finishedReducers: int, phase: Phase)

  const InitialProgress := Progress(0, 0, MapPhase)

  /**
   * A success report: the counter of its type goes up by one, and the phase
   * moves on when that counter reaches the number of tasks of the type.
   */
  function AfterSuccess(p: Progress, t: TaskType, m: int, r: int): Progress {
    if t == MAP then
      var f := p.finishedMappers + 1;
      Progress(f, p.finishedReducers, if f == m then ReducePhase else p.phase)
    else
      var f := p.finishedReducers + 1;
      Progress(p.finishedMappers, f, if f == r then JobEnded else p.phase)
  }

  /** The progress after a series of success reports, in order. */
  function AfterSuccesses(p: Progress, types: seq<TaskType>, m: int, r: int): Progress
  {
    if |types| == 0 then p else AfterSuccess(AfterSuccesses(p, types[..|types| - 1], m, r), types[|types| - 1], m, r)
  }

  function Repeat(t: TaskType, n: nat): (s: seq<TaskType>)
    ensures |s| == n && forall j :: 0 <= j < n ==> s[j] == t
  {
    seq(n, _ => t)
  }

  /**
   * From the start, `k` map successes count `k` finished maps; the reduce
   * phase begins with the m-th and lasts through any later map report.
   */
  lemma {:induction false} MapSuccesses(m: int, r: int, k: nat)
    requires m >= 1
    ensures AfterSuccesses(InitialProgress, Repeat(MAP, k), m, r)
         == Progress(k, 0, if k >= m then ReducePhase else MapPhase)
  {
    if k > 0 {
      assert Repeat(MAP, k)[..k - 1] == Repeat(MAP, k - 1);
      MapSuccesses(m, r, k - 1);
    }
  }

  /** Success reports applied one series after the other. */
  lemma {:induction false} AfterSuccessesAppend(p: Progress, a: seq<TaskType>, b: seq<TaskType>, m: int, r: int)
    ensures AfterSuccesses(p, a + b, m, r) == AfterSuccesses(AfterSuccesses(p, a, m, r), b, m, r)
  {
    if |b| > 0 {
      assert (a + b)[..|a + b| - 1] == a + b[..|b| - 1];
      AfterSuccessesAppend(p, a, b[..|b| - 1], m, r);
    } else {
      assert a + b == a;
    }
  }

  /** In the reduce phase, `k` reduce successes end the job exactly when `k` reaches r. */
  lemma {:induction false} ReduceSuccesses(m: int, r: int, k: nat)
    requires r >= 1
    ensures AfterSuccesses(Progress(m, 0, ReducePhase), Repeat(REDUCE, k), m, r)
         == Progress(m, k, if k >= r then JobEnded else ReducePhase)
  {
    if k > 0 {
      assert Repeat(REDUCE, k)[..k - 1] == Repeat(REDUCE, k - 1);
      ReduceSuccesses(m, r, k - 1);
    }
  }

  /** m map successes followed by r reduce successes end the job. */
  lemma JobEndsAfterEveryTask(m: int, r: int)
    requires m >= 1 && r >= 1
    ensures AfterSuccesses(InitialProgress, Repeat(MAP, m) + Repeat(REDUCE, r), m, r).phase == JobEnded
  {
    AfterSuccessesAppend(InitialProgress, Repeat(MAP, m), Repeat(REDUCE, r), m, r);
    MapSuccesses(m, r, m);
    ReduceSuccesses(m, r, r);
  }

  /**
   * With no reducers the job never reaches its end: the reduce counter only
   * takes values from 1 on, so it never equals the count.
   */
  lemma {:induction false} NoReducersNeverEnd(types: seq<TaskType>, m: int, r: int)
    requires r <= 0
    ensures AfterSuccesses(InitialProgress, types, m, r).phase != JobEnded
    ensures AfterSuccesses(InitialProgress, types, m, r).finishedReducers >= 0
  {
    if |types| > 0 {
      NoReducersNeverEnd(types[..|types| - 1], m, r);
    }
  }

  // ------------------------------------------------------------------ workers

  /** The index of the first free worker at or after `i`. */
  function FirstFreeFrom(a: seq<Option<int>>, i: nat): (w: Option<nat>)
    ensures w.Some? ==> i <= w.value < |a| && a[w.value].None?
    ensures w.Some? ==> forall j :: i <= j < w.value ==> a[j].Some?
    ensures w.None? ==> forall j :: i <= j < |a| ==> a[j].Some?
    decreases |a| - i
  {
    if i >= |a| then None else if a[i].None? then Some(i) else FirstFreeFrom(a, i + 1)
  }

  /** The indices of the free workers from `i` on, in order. */
  function FreeFrom(a: seq<Option<int>>, i: nat): (f: seq<nat>)
    ensures forall j :: 0 <= j < |f| ==> i <= f[j] < |a| && a[f[j]].None?
    decreases |a| - i
  {
    if i >= |a| then [] else (if a[i].None? then [i] else []) + FreeFrom(a, i + 1)
  }

  function FreeWorkers(a: seq<Option<int>>): seq<nat> { FreeFrom(a, 0) }

  /** The first free worker is the first of the free workers. */
  lemma {:induction false} FirstFreeIsFirst(a: seq<Option<int>>, i: nat)
    ensures FirstFreeFrom(a, i).None? <==> FreeFrom(a, i) == []
    ensures FirstFreeFrom(a, i).Some? ==> FirstFreeFrom(a, i).value == FreeFrom(a, i)[0]
    decreases |a| - i
  {
    if i < |a| && a[i].Some? {
      FirstFreeIsFirst(a, i + 1);
    }
  }

  /** Two assignments that agree from `i` on have the same free workers from `i` on. */
  lemma {:induction false} FreeFromAgree(a: seq<Option<int>>, b: seq<Option<int>>, i: nat)
    requires |a| == |b| && forall j :: i <= j < |a| ==> a[j] == b[j]
    ensures FreeFrom(a, i) == FreeFrom(b, i)
    decreases |a| - i
  {
    if i < |a| {
      FreeFromAgree(a, b, i + 1);
    }
  }

  /** Giving the first free worker a task removes it, and only it, from the free workers. */
  lemma {:induction false} FillFirstFree(a: seq<Option<int>>, i: nat, id: int)
    requires FirstFreeFrom(a, i).Some?
    ensures FreeFrom(a, i) != [] && FreeFrom(a, i)[0] == FirstFreeFrom(a, i).value
    ensures FreeFrom(a[FirstFreeFrom(a, i).value := Some(id)], i) == FreeFrom(a, i)[1..]
    decreases |a| - i
  {
    FirstFreeIsFirst(a, i);
    var w := FirstFreeFrom(a, i).value;
    var b := a[w := Some(id)];
    if i == w {
      FreeFromAgree(a, b, i + 1);
    } else {
      FillFirstFree(a, i + 1, id);
    }
  }

  /** The outcome of `distributeTasks`: the queue left, the workers' tasks, how many tasks were placed, and whether a send failed. */
  datatype Distribution = Distribution(queue: seq<NewTaskDetails>, assignments: seq<Option<int>>, placed: nat, failed: bool)

  /**
   * `distributeTasks` on values: while tasks are queued and a worker is
   * free, the head goes to the first free worker; a failed send puts the
   * head back at the tail and stops. `attempt` numbers the sends.
   */
  function Distribute(queue: seq<NewTaskDetails>, a: seq<Option<int>>, delivered: nat -> bool, attempt: nat): Distribution
    decreases |queue|
  {
    if |queue| == 0 then Distribution(queue, a, 0, false)
    else match FirstFreeFrom(a, 0)
      case None => Distribution(queue, a, 0, false)
      case Some(w) =>
        if delivered(attempt) then
          var d := Distribute(queue[1..], a[w := Some(queue[0].taskId)], delivered, attempt + 1);
          d.(placed := d.placed + 1)
        else Distribution(queue[1..] + [queue[0]], a, 0, true)
  }

  /** One round of distribution, as the loop of `distributeTasks` runs it. */
  lemma DistributeStep(queue: seq<NewTaskDetails>, a: seq<Option<int>>, delivered: nat -> bool, attempt: nat)
    requires |queue| > 0
    ensures var d := Distribute(queue, a, delivered, attempt);
      match FirstFreeFrom(a, 0)
      case None => d.queue == queue && d.assignments == a
      case Some(w) =>
        if delivered(attempt) then
          var next := Distribute(queue[1..], a[w := Some(queue[0].taskId)], delivered, attempt + 1);
          d.queue == next.queue && d.assignments == next.assignments
        else d.queue == queue[1..] + [queue[0]] && d.assignments == a
  {
  }

  /** Distribution never takes a task from a busy worker, and places at most the queued tasks. */
  lemma {:induction false} DistributeKeepsBusy(queue: seq<NewTaskDetails>, a: seq<Option<int>>, delivered: nat -> bool, attempt: nat)
    ensures var d := Distribute(queue, a, delivered, attempt);
      && |d.assignments| == |a| && d.placed <= |queue|
      && forall i :: 0 <= i < |a| && a[i].Some? ==> d.assignments[i] == a[i]
    decreases |queue|
  {
    if |queue| > 0 && FirstFreeFrom(a, 0).Some? && delivered(attempt) {
      var w := FirstFreeFrom(a, 0).value;
      DistributeKeepsBusy(queue[1..], a[w := Some(queue[0].taskId)], delivered, attempt + 1);
    }
  }

  /**
   * The first `placed` queued tasks go, in order, to the first `placed` free
   * workers, and the free workers after those stay free.
   */
  lemma {:induction false} DistributeFillsFree(queue: seq<NewTaskDetails>, a: seq<Option<int>>, delivered: nat -> bool, attempt: nat)
    ensures var d := Distribute(queue, a, delivered, attempt);
      var free := FreeWorkers(a);
      && |d.assignments| == |a| && d.placed <= |free| && d.placed <= |queue|
      && (forall j :: 0 <= j < d.placed ==> d.assignments[free[j]] == Some(queue[j].taskId))
      && (forall j :: d.placed <= j < |free| ==> d.assignments[free[j]] == None)
    decreases |queue|
  {
    var d := Distribute(queue, a, delivered, attempt);
    var free := FreeWorkers(a);
    DistributeKeepsBusy(queue, a, delivered, attempt);
    if |queue| > 0 && FirstFreeFrom(a, 0).Some? && delivered(attempt) {
      var w := FirstFreeFrom(a, 0).value;
      var b := a[w := Some(queue[0].taskId)];
      FillFirstFree(a, 0, queue[0].taskId);
      DistributeFillsFree(queue[1..], b, delivered, attempt + 1);
      DistributeKeepsBusy(queue[1..], b, delivered, attempt + 1);
      assert FreeWorkers(b) == free[1..];
      forall j | 1 <= j < d.placed
        ensures d.assignments[free[j]] == Some(queue[j].taskId)
      {
        assert free[j] == free[1..][j - 1];
        assert queue[j] == queue[1..][j - 1];
      }
      forall j | d.placed <= j < |free|
        ensures d.assignments[free[j]] == None
      {
        assert free[j] == free[1..][j - 1];
      }
    }
  }

  /**
   * The queue keeps the tasks not placed, in order, except that the task
   * whose send failed moves to the tail; unless a send failed, distribution
   * stops only when the queue is empty or no worker is free.
   */
  lemma {:induction false} DistributeQueue(queue: seq<NewTaskDetails>, a: seq<Option<int>>, delivered: nat -> bool, attempt: nat)
    ensures var d := Distribute(queue, a, delivered, attempt);
      && d.placed <= |queue|
      && (!d.failed ==> d.queue == queue[d.placed..] && (d.placed == |queue| || d.placed == |FreeWorkers(a)|))
      && (d.failed ==> d.placed < |queue| && d.queue == queue[d.placed + 1..] + [queue[d.placed]]
                       && !delivered(attempt + d.placed))
    decreases |queue|
  {
    var d := Distribute(queue, a, delivered, attempt);
    FirstFreeIsFirst(a, 0);
    if |queue| > 0 && FirstFreeFrom(a, 0).Some? && delivered(attempt) {
      var w := FirstFreeFrom(a, 0).value;
      var b := a[w := Some(queue[0].taskId)];
      FillFirstFree(a, 0, queue[0].taskId);
      DistributeQueue(queue[1..], b, delivered, attempt + 1);
      var d' := Distribute(queue[1..], b, delivered, attempt + 1);
      assert queue[1..][d'.placed..] == queue[d.placed..];
      if d.failed {
        assert queue[1..][d'.placed + 1..] == queue[d.placed + 1..];
        assert queue[1..][d'.placed] == queue[d.placed];
      }
    }
  }

  /** `findFirst` of the workers running task `id`, and releasing it. */
  function FirstRunning(a: seq<Option<int>>, id: int, i: nat): (w: Option<nat>)
    ensures w.Some? ==> i <= w.value < |a| && a[w.value] == Some(id)
    ensures w.None? ==> forall j :: i <= j < |a| ==> a[j] != Some(id)
    decreases |a| - i
  {
    if i >= |a| then None else if a[i] == Some(id) then Some(i) else FirstRunning(a, id, i + 1)
  }

  /**
   * The assignments after a success report for `id`: the first worker
   * running `id` becomes free; all others, including later ones running the
   * same id, keep their task.
   */
  function Released(a: seq<Option<int>>, id: int): (b: seq<Option<int>>)
    ensures |b| == |a|
    ensures FirstRunning(a, id, 0).None? ==> b == a
    ensures FirstRunning(a, id, 0).Some? ==>
      var w := FirstRunning(a, id, 0).value;
      b[w] == None && forall j :: 0 <= j < |a| && j != w ==> b[j] == a[j]
  {
    match FirstRunning(a, id, 0)
    case None => a
    case Some(w) => a[w := None]
  }

  /** `ConnectedWorker`: a registered worker and the id of the task it runs, if any. */
  class ConnectedWorker {
    const port: string
    var currentTaskId: Option<int>

    constructor (port: string)
      ensures this.port == port && currentTaskId == None
    {
      this.port := port;
      currentTaskId := None;
    }

    predicate IsFree()
      reads this
    {
      currentTaskId.None?
    }

    method AssignTask(taskId: int)
      modifies this
      ensures currentTaskId == Some(taskId)
    {
      currentTaskId := Some(taskId);
    }

    method Release()
      modifies this
      ensures currentTaskId == None
    {
      currentTaskId := None;
    }
  }

  /** The task each worker runs, in registration order. */
  function AssignmentsOf(ws: seq<ConnectedWorker>): (a: seq<Option<int>>)
    reads ws
    ensures |a| == |ws| && forall i :: 0 <= i < |ws| ==> a[i] == ws[i].currentTaskId
  {
    if |ws| == 0 then [] else [ws[0].currentTaskId] + AssignmentsOf(ws[1..])
  }

  ghost predicate Distinct(ws: seq<ConnectedWorker>) {
    forall i, j :: 0 <= i < j < |ws| ==> ws[i] != ws[j]
  }

  class Coordinator {
    const mappersCount: int
    const reducersCount: int
    const layout: Layout
    var connectionString: string

    var workers: seq<ConnectedWorker>
    var mapTaskQueue: seq<NewTaskDetails>
    var reduceTaskQueue: seq<NewTaskDetails>
    var finishedMappersCount: int
    var finishedReducersCount: int
    var currentPhase: Phase

    /** Every registered worker is a different object. */
    ghost predicate Valid()
      reads this
    {
      Distinct(workers)
    }

    function Assignments(): seq<Option<int>>
      reads this, workers
    {
      AssignmentsOf(workers)
    }

    function CurrentProgress(): Progress
      reads this
    {
      Progress(finishedMappersCount, finishedReducersCount, currentPhase)
    }

    /** The queue `distributeTasks` serves in the current phase. */
    function CurrentQueue(): seq<NewTaskDetails>
      reads this
    {
      if currentPhase == MapPhase then mapTaskQueue else reduceTaskQueue
    }

    constructor (mappersCount: int, reducersCount: int, layout: Layout)
      ensures Valid()
      ensures this.mappersCount == mappersCount && this.reducersCount == reducersCount && this.layout == layout
      ensures workers == [] && mapTaskQueue == [] && reduceTaskQueue == [] && connectionString == ""
      ensures CurrentProgress() == InitialProgress
    {
      this.mappersCount := mappersCount;
      this.reducersCount := reducersCount;
      this.layout := layout;
      connectionString := "";
      workers := [];
      mapTaskQueue := [];
      reduceTaskQueue := [];
      finishedMappersCount := 0;
      finishedReducersCount := 0;
      currentPhase := MapPhase;
    }

    /**
     * `start`, up to waiting for the job: `listing` is the list of input
     * files (given by the caller of the embedded coordinator, listed from the
     * storage by the stand-alone one, whose failure is rethrown as a
     * RuntimeException). The map tasks, then the reduce tasks, join their
     * queues.
     */
    method Start(listing: Result<seq<string>>, connectionString: string) returns (r: Result<()>)
      modifies this
      ensures this.connectionString == connectionString
      ensures workers == old(workers) && CurrentProgress() == old(CurrentProgress())
      ensures listing.Err? ==> r == Err(Runtime("")) && mapTaskQueue == old(mapTaskQueue) && reduceTaskQueue == old(reduceTaskQueue)
      ensures listing.Ok? ==>
        && r == Ok(())
        && mapTaskQueue == old(mapTaskQueue) + MapTasks(listing.value, mappersCount, StorageFor(layout, connectionString, MAP))
        && reduceTaskQueue == old(reduceTaskQueue) + ReduceTasks(layout, mappersCount, reducersCount, StorageFor(layout, connectionString, REDUCE))
    {
      this.connectionString := connectionString;
      if listing.Err? {
        return Err(Runtime(""));
      }
      var mapTasks := SplitIntoMapTasks(listing.value, mappersCount, StorageFor(layout, connectionString, MAP));
      mapTaskQueue := mapTaskQueue + mapTasks;
      var reduceTasks := CollectReduceTasks(layout, mappersCount, reducersCount, StorageFor(layout, connectionString, REDUCE));
      reduceTaskQueue := reduceTaskQueue + reduceTasks;
      return Ok(());
    }

    /** `workers.stream().filter(ConnectedWorker::isFree).findFirst()`. */
    method FindFreeWorker() returns (w: Option<nat>)
      ensures w == FirstFreeFrom(Assignments(), 0)
    {
      var i := 0;
      while i < |workers|
        invariant 0 <= i <= |workers|
        invariant FirstFreeFrom(Assignments(), i) == FirstFreeFrom(Assignments(), 0)
      {
        if workers[i].IsFree() {
          return Some(i);
        }
        i := i + 1;
      }
      return None;
    }

    /** The workers whose `currentTaskId` equals `id`, `findFirst`. */
    method FindRunning(id: int) returns (w: Option<nat>)
      ensures w == FirstRunning(Assignments(), id, 0)
    {
      var i := 0;
      while i < |workers|
        invariant 0 <= i <= |workers|
        invariant FirstRunning(Assignments(), id, i) == FirstRunning(Assignments(), id, 0)
      {
        if workers[i].currentTaskId == Some(id) {
          return Some(i);
        }
        i := i + 1;
      }
      return None;
    }

    /** Giving worker `w` a task changes that worker's entry and no other. */
    method AssignWorker(w: nat, taskId: int)
      requires Valid() && w < |workers|
      modifies workers[w]
      ensures Assignments() == old(Assignments())[w := Some(taskId)]
    {
      workers[w].AssignTask(taskId);
      forall j | 0 <= j < |workers| && j != w
        ensures workers[j].currentTaskId == old(workers[j].currentTaskId)
      {
        assert workers[j] != workers[w];
      }
    }

    /** Releasing worker `w` frees that worker and no other. */
    method ReleaseWorker(w: nat)
      requires Valid() && w < |workers|
      modifies workers[w]
      ensures Assignments() == old(Assignments())[w := None]
    {
      workers[w].Release();
      forall j | 0 <= j < |workers| && j != w
        ensures workers[j].currentTaskId == old(workers[j].currentTaskId)
      {
        assert workers[j] != workers[w];
      }
    }

    /**
     * `distributeTasks`: serves the map queue in the map phase and the
     * reduce queue otherwise; `delivered(n)` is whether the n-th send of
     * this call reaches its worker.
     */
    method DistributeTasks(delivered: nat -> bool)
      requires Valid()
      modifies this, workers
      ensures Valid() && workers == old(workers) && CurrentProgress() == old(CurrentProgress())
      ensures connectionString == old(connectionString)
      ensures var d := Distribute(old(CurrentQueue()), old(Assignments()), delivered, 0);
        && Assignments() == d.assignments
        && CurrentQueue() == d.queue
        && (currentPhase == MapPhase ==> reduceTaskQueue == old(reduceTaskQueue))
        && (currentPhase != MapPhase ==> mapTaskQueue == old(mapTaskQueue))
    {
      var queue := ServeQueue(CurrentQueue(), delivered);
      ghost var after := AssignmentsOf(workers);
      if currentPhase == MapPhase {
        mapTaskQueue := queue;
      } else {
        reduceTaskQueue := queue;
      }
      assert Assignments() == after;
    }

    /**
     * The loop of `distributeTasks`: hands the head of `queue` to the first
     * free worker until the queue is empty, no worker is free or a send
     * fails, and returns what is left of the queue.
     */
    method ServeQueue(queue: seq<NewTaskDetails>, delivered: nat -> bool) returns (rest: seq<NewTaskDetails>)
      requires Valid()
      modifies workers
      ensures var d := Distribute(queue, old(Assignments()), delivered, 0);
        Assignments() == d.assignments && rest == d.queue
    {
      rest := queue;
      ghost var goal := Distribute(queue, Assignments(), delivered, 0);
      var attempt := 0;
      while |rest| > 0
        invariant Distribute(rest, Assignments(), delivered, attempt).queue == goal.queue
        invariant Distribute(rest, Assignments(), delivered, attempt).assignments == goal.assignments
        decreases |rest|
      {
        ghost var a := Assignments();
        var w := FindFreeWorker();
        DistributeStep(rest, a, delivered, attempt);
        if w.None? {
          break;
        }
        var task := rest[0];
        rest := rest[1..];
        if delivered(attempt) {
          AssignWorker(w.value, task.taskId);
          attempt := attempt + 1;
        } else {
          rest := rest + [task];
          break;
        }
      }
    }

    /** `registerWorker`: a new free worker joins, last, and tasks are distributed. */
    method RegisterWorker(port: string, delivered: nat -> bool)
      requires Valid()
      modifies this, workers
      ensures Valid() && CurrentProgress() == old(CurrentProgress()) && connectionString == old(connectionString)
      ensures |workers| == |old(workers)| + 1 && workers[..|old(workers)|] == old(workers)
      ensures fresh(workers[|old(workers)|]) && workers[|old(workers)|].port == port
      ensures var d := Distribute(old(CurrentQueue()), old(Assignments()) + [None], delivered, 0);
        && Assignments() == d.assignments
        && CurrentQueue() == d.queue
        && (currentPhase == MapPhase ==> reduceTaskQueue == old(reduceTaskQueue))
        && (currentPhase != MapPhase ==> mapTaskQueue == old(mapTaskQueue))
    {
      var worker := new ConnectedWorker(port);
      workers := workers + [worker];
      assert Assignments() == old(Assignments()) + [None];
      DistributeTasks(delivered);
    }

    /**
     * `receiveTaskCompletion`. A report whose status is not "SUCCEED" puts
     * the task back at the tail of its type's queue and does nothing else:
     * the worker stays busy and nothing is distributed. A success counts,
     * may move the phase on, frees the first worker running that id, and
     * distributes tasks.
     */
    method ReceiveTaskCompletion(details: TaskDetails, delivered: nat -> bool)
      requires Valid()
      modifies this, workers
      ensures Valid() && workers == old(workers) && connectionString == old(connectionString)
      ensures details.status != SUCCEED ==>
        && CurrentProgress() == old(CurrentProgress()) && Assignments() == old(Assignments())
        && mapTaskQueue == old(mapTaskQueue) + (if details.taskType == MAP then [Requeued(details, layout, connectionString)] else [])
        && reduceTaskQueue == old(reduceTaskQueue) + (if details.taskType == MAP then [] else [Requeued(details, layout, connectionString)])
      ensures details.status == SUCCEED ==>
        && CurrentProgress() == AfterSuccess(old(CurrentProgress()), details.taskType, mappersCount, reducersCount)
        && var d := Distribute(if currentPhase == MapPhase then old(mapTaskQueue) else old(reduceTaskQueue),
                               Released(old(Assignments()), details.taskId), delivered, 0);
           && Assignments() == d.assignments
           && CurrentQueue() == d.queue
           && (currentPhase == MapPhase ==> reduceTaskQueue == old(reduceTaskQueue))
           && (currentPhase != MapPhase ==> mapTaskQueue == old(mapTaskQueue))
    {
      if details.status != SUCCEED {
        var task := Requeued(details, layout, connectionString);
        if details.taskType == MAP {
          mapTaskQueue := mapTaskQueue + [task];
        } else {
          reduceTaskQueue := reduceTaskQueue + [task];
        }
        return;
      }
      CountSuccess(details.taskType);
      ReleaseRunning(details.taskId);
      DistributeTasks(delivered);
    }

    /** The success half of `receiveTaskCompletion` before any worker is released: the counters and the phase. */
    method CountSuccess(t: TaskType)
      modifies this
      ensures CurrentProgress() == AfterSuccess(old(CurrentProgress()), t, mappersCount, reducersCount)
      ensures workers == old(workers) && connectionString == old(connectionString)
      ensures mapTaskQueue == old(mapTaskQueue) && reduceTaskQueue == old(reduceTaskQueue)
    {
      if t == MAP {
        finishedMappersCount := finishedMappersCount + 1;
        if finishedMappersCount == mappersCount {
          currentPhase := ReducePhase;
        }
      } else {
        finishedReducersCount := finishedReducersCount + 1;
        if finishedReducersCount == reducersCount {
          currentPhase := JobEnded;
        }
      }
    }

    /** Frees the first worker running task `id`, if there is one. */
    method ReleaseRunning(id: int)
      requires Valid()
      modifies workers
      ensures Assignments() == Released(old(Assignments()), id)
    {
      var w := FindRunning(id);
      if w.Some? {
        ReleaseWorker(w.value);
      }
    }
  }

  /**
   * A failure report frees no worker: a worker that ran the failed task
   * stays busy with it, so when it was the only worker, no later
   * distribution can hand the re-queued task to anyone until another worker
   * registers or another success frees one.
   */
  lemma FailedTaskWorkerStaysBusy(a: seq<Option<int>>, id: int, queue: seq<NewTaskDetails>, delivered: nat -> bool)
    requires a == [Some(id)]
    ensures Distribute(queue, a, delivered, 0) == Distribution(queue, a, 0, false)
  {
  }
}
