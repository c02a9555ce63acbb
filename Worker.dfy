/**
 * The embedded worker's task bookkeeping: one slot for the task it runs and a
 * history of finished tasks keyed by task id. A task's status is shown as
 * its name, and the FAILED status also shows the exception of the most
 * recent failure: the exception is kept on the FAILED status itself, an
 * enum constant that every task of every worker in the process shares.
 *
 * Running a task is a parameter (`runner`, the outcome of the map or reduce
 * task the worker starts); waiting for a task, notifying the coordinator and
 * logging are not modelled.
 */
module Workers {
  import opened Wrappers
  import opened MapReduceTasksRunner
  import opened Coordinators

  datatype TaskStatus = Running | Succeeded | Failed

  function StatusName(s: TaskStatus): string {
    match s
    case Running => "RUNNING"
    case Succeeded => "SUCCEED"
    case Failed => "FAILED"
  }

  /**
   * `TaskStatus.toString`: the name, followed by ": " and the exception's
   * text (`Throwable.toString`) when the status carries one. Only FAILED is
   * ever given an exception, and it keeps the last one it was given.
   */
  function StatusText(s: TaskStatus, failure: Option<string>): (text: string)
    ensures s != Failed || failure.None? ==> text == StatusName(s)
    ensures s == Failed && failure.Some? ==> text == "FAILED: " + failure.value
  {
    if s == Failed && failure.Some? then StatusName(s) + ": " + failure.value else StatusName(s)
  }

  /**
   * The FAILED enum constant, with the exception text it carries. It is one
   * object per process: workers built with the same `FailedStatus` share it.
   */
  class FailedStatus {
    var exception: Option<string>

    constructor ()
      ensures exception == None
    {
      exception := None;
    }
  }

  datatype Task = Task(taskId: int, taskType: TaskType, inputFiles: seq<string>, status: TaskStatus)

  const BUSY := "The worker is currently busy with another task."

  /** What the worker asks the task runner to do. */
  datatype TaskRun =
    | MapRun(inputFiles: seq<string>, mapperId: int, outputDir: string)
    | ReduceRun(inputFiles: seq<string>, reducerId: int, outputDir: string)

  /** `Path.resolve` of a relative name against a directory. */
  function Resolve(dir: string, name: string): string {
    dir + "/" + name
  }

  /** Every name of `names` resolved against `dir`. */
  function ResolveAll(dir: string, names: seq<string>): (paths: seq<string>)
    ensures |paths| == |names| && forall k :: 0 <= k < |names| ==> paths[k] == Resolve(dir, names[k])
  {
    seq(|names|, k requires 0 <= k < |names| => Resolve(dir, names[k]))
  }

  /**
   * The run `executeCurrentTask` starts: a map task writes into the map
   * output directory under its own id; a reduce task reads its inputs from
   * that directory and writes as reducer (id - number of map tasks).
   */
  function RunOf(t: Task, mappersCount: int, mappersOutputPath: string, outputDirectory: string): TaskRun {
    match t.taskType
    case MAP => MapRun(t.inputFiles, t.taskId, mappersOutputPath)
    case REDUCE => ReduceRun(ResolveAll(mappersOutputPath, t.inputFiles), t.taskId - mappersCount, outputDirectory)
  }

  /** A task's details, its status read with the exception `failure` on the FAILED status. */
  function DetailsOf(t: Task, failure: Option<string>): TaskDetails {
    TaskDetails(t.taskId, t.taskType, t.inputFiles, StatusText(t.status, failure))
  }

  class Worker {
    const mappersCount: int
    const mappersOutputPath: string
    const outputDirectory: string

    /** The FAILED status, shared by every failed task of every worker built with it. */
    const failed: FailedStatus

    var currentTask: Option<Task>
    var previousTasks: map<int, Task>

    /** Every history entry is filed under its own task id. */
    ghost predicate Valid()
      reads this
    {
      forall id :: id in previousTasks ==> previousTasks[id].taskId == id
    }

    constructor (mappersCount: int, mappersOutputPath: string, outputDirectory: string, failed: FailedStatus)
      ensures Valid()
      ensures this.mappersCount == mappersCount && this.mappersOutputPath == mappersOutputPath
      ensures this.outputDirectory == outputDirectory && this.failed == failed
      ensures currentTask == None && previousTasks == map[]
    {
      this.mappersCount := mappersCount;
      this.mappersOutputPath := mappersOutputPath;
      this.outputDirectory := outputDirectory;
      this.failed := failed;
      currentTask := None;
      previousTasks := map[];
    }

    /** `Task.getTaskDetails`, with the status as it reads now. */
    function Details(t: Task): TaskDetails
      reads this, failed
    {
      DetailsOf(t, failed.exception)
    }

    /**
     * `createTask`: refused while a task is current, and then nothing
     * changes; otherwise the task becomes current with status RUNNING and
     * its details are returned.
     */
    method CreateTask(d: NewTaskDetails) returns (r: Result<TaskDetails>)
      requires Valid()
      modifies this
      ensures Valid()
      ensures r.Err? <==> old(currentTask).Some?
      ensures old(currentTask).Some? ==>
        r == Err(IllegalState(BUSY)) && currentTask == old(currentTask)
        && previousTasks == old(previousTasks)
      ensures old(currentTask).None? ==>
        && currentTask == Some(Task(d.taskId, d.taskType, d.inputFiles, Running))
        && previousTasks == old(previousTasks)
        && r == Ok(TaskDetails(d.taskId, d.taskType, d.inputFiles, "RUNNING"))
    {
      if currentTask.Some? {
        return Err(IllegalState(BUSY));
      }
      var task := Task(d.taskId, d.taskType, d.inputFiles, Running);
      currentTask := Some(task);
      return Ok(Details(task));
    }

    /** `getTaskDetails`: the current task when its id matches, else the history entry, else nothing. */
    function GetTaskDetails(taskId: int): (r: Option<TaskDetails>)
      reads this, failed
      ensures currentTask.Some? && currentTask.value.taskId == taskId ==> r == Some(Details(currentTask.value))
      ensures !(currentTask.Some? && currentTask.value.taskId == taskId) ==>
        (r.Some? <==> taskId in previousTasks)
        && (taskId in previousTasks ==> r == Some(Details(previousTasks[taskId])))
    {
      if currentTask.Some? && currentTask.value.taskId == taskId then Some(Details(currentTask.value))
      else if taskId in previousTasks then Some(Details(previousTasks[taskId]))
      else None
    }

    /**
     * `getAllTasks`: the history in the order its map yields its keys
     * (`keyOrder`, every key once), then the current task, if any.
     */
    function GetAllTasks(keyOrder: seq<int>): (r: seq<TaskDetails>)
      reads this, failed
      requires forall j :: 0 <= j < |keyOrder| ==> keyOrder[j] in previousTasks
      ensures |r| == |keyOrder| + (if currentTask.Some? then 1 else 0)
      ensures forall j :: 0 <= j < |keyOrder| ==> r[j] == Details(previousTasks[keyOrder[j]])
      ensures currentTask.Some? ==> r[|keyOrder|] == Details(currentTask.value)
    {
      var tasks, shown := previousTasks, failed.exception;
      var history := seq(|keyOrder|, j requires 0 <= j < |keyOrder| && keyOrder[j] in tasks => DetailsOf(tasks[keyOrder[j]], shown));
      if currentTask.Some? then history + [Details(currentTask.value)] else history
    }

    /**
     * `executeCurrentTask`: asks the runner for the current task's run. A
     * normal return marks the task SUCCEED; an IOException marks it FAILED
     * and hands the exception's text to the shared FAILED status; any other
     * exception leaves everything as it was and propagates.
     */
    method ExecuteCurrentTask(runner: TaskRun -> Result<()>) returns (r: Result<()>)
      requires Valid() && currentTask.Some?
      modifies this, failed
      ensures Valid() && previousTasks == old(previousTasks)
      ensures var t := old(currentTask).value;
        match runner(RunOf(t, mappersCount, mappersOutputPath, outputDirectory))
        case Ok(_) =>
          r == Ok(()) && currentTask == Some(t.(status := Succeeded)) && failed.exception == old(failed.exception)
        case Err(IO(c, message)) =>
          r == Ok(()) && currentTask == Some(t.(status := Failed)) && failed.exception == Some(c + ": " + message)
        case Err(e) => r == Err(e) && currentTask == old(currentTask) && failed.exception == old(failed.exception)
    {
      var t := currentTask.value;
      var outcome := runner(RunOf(t, mappersCount, mappersOutputPath, outputDirectory));
      match outcome {
        case Ok(_) =>
          currentTask := Some(t.(status := Succeeded));
          r := Ok(());
        case Err(IO(c, message)) =>
          currentTask := Some(t.(status := Failed));
          failed.exception := Some(ExceptionText(outcome.error));
          r := Ok(());
        case Err(e) =>
          r := Err(e);
      }
    }

    /** `moveCurrentTaskToHistory`: files the current task under its id, replacing any earlier entry, and empties the slot. */
    method MoveCurrentTaskToHistory()
      requires Valid() && currentTask.Some?
      modifies this
      ensures Valid()
      ensures previousTasks == old(previousTasks)[old(currentTask).value.taskId := old(currentTask).value]
      ensures currentTask == None
    {
      var t := currentTask.value;
      previousTasks := previousTasks[t.taskId := t];
      currentTask := None;
    }

    /**
     * One round of the worker's main loop after a task arrived: run it, take
     * its details, and file it. The details are what the coordinator is
     * told; an exception other than an IOException ends the loop instead.
     */
    method FinishCurrentTask(runner: TaskRun -> Result<()>) returns (r: Result<TaskDetails>)
      requires Valid() && currentTask.Some?
      modifies this, failed
      ensures Valid()
      ensures var t := old(currentTask).value;
        var outcome := runner(RunOf(t, mappersCount, mappersOutputPath, outputDirectory));
        && (outcome.Err? && !outcome.error.IO? ==>
              && r == Err(outcome.error) && currentTask == old(currentTask)
              && previousTasks == old(previousTasks) && failed.exception == old(failed.exception))
        && (outcome.Ok? ==> failed.exception == old(failed.exception))
        && (outcome.Err? && outcome.error.IO? ==>
              failed.exception == Some(outcome.error.className + ": " + outcome.error.message))
        && (outcome.Ok? || outcome.error.IO? ==>
              var done := t.(status := if outcome.Ok? then Succeeded else Failed);
              && currentTask == None
              && previousTasks == old(previousTasks)[t.taskId := done]
              && r == Ok(Details(done))
              && GetTaskDetails(t.taskId) == Some(Details(done)))
    {
      var ran := ExecuteCurrentTask(runner);
      if ran.Err? {
        return Err(ran.error);
      }
      var details := Details(currentTask.value);
      MoveCurrentTaskToHistory();
      return Ok(details);
    }
  }

  /**
   * When `keyOrder` lists every history key once, the task list shows every
   * history task, no two entries of it share an id, and the current task, if
   * any, comes last.
   */
  lemma AllTasksListsHistoryOnce(w: Worker, keyOrder: seq<int>)
    requires w.Valid()
    requires forall j :: 0 <= j < |keyOrder| ==> keyOrder[j] in w.previousTasks
    requires forall id :: id in w.previousTasks ==> id in keyOrder
    requires forall j, j' :: 0 <= j < j' < |keyOrder| ==> keyOrder[j] != keyOrder[j']
    ensures var r := w.GetAllTasks(keyOrder);
      && (forall id :: id in w.previousTasks ==> w.Details(w.previousTasks[id]) in r[..|keyOrder|])
      && (forall j, j' :: 0 <= j < j' < |keyOrder| ==> r[j].taskId != r[j'].taskId)
  {
    var r := w.GetAllTasks(keyOrder);
    forall id | id in w.previousTasks
      ensures w.Details(w.previousTasks[id]) in r[..|keyOrder|]
    {
      var j :| 0 <= j < |keyOrder| && keyOrder[j] == id;
      assert r[..|keyOrder|][j] == w.Details(w.previousTasks[id]);
    }
  }

  /**
   * The report a finished task produces is counted by the coordinator
   * exactly when the run returned normally: only then is its status
   * "SUCCEED", whatever exception the FAILED status carries.
   */
  lemma ReportCountsIffSucceeded(t: Task, failure: Option<string>)
    requires t.status != Running
    ensures StatusText(t.status, failure) == SUCCEED <==> t.status == Succeeded
  {
    if t.status == Failed && failure.Some? {
      assert StatusText(t.status, failure)[..6] == "FAILED";
    }
  }

  /**
   * Because the exception lives on the shared FAILED status, every failed
   * task reads the same, showing the most recent failure's exception rather
   * than its own.
   */
  lemma FailedTasksReadAlike(w: Worker, id1: int, id2: int)
    requires id1 in w.previousTasks && id2 in w.previousTasks
    requires w.previousTasks[id1].status == Failed && w.previousTasks[id2].status == Failed
    ensures w.GetTaskDetails(id1).Some? && w.GetTaskDetails(id2).Some?
    ensures w.currentTask.None? ==> w.GetTaskDetails(id1).value.status == w.GetTaskDetails(id2).value.status
    ensures w.failed.exception.Some? ==> w.Details(w.previousTasks[id1]).status == "FAILED: " + w.failed.exception.value
  {
  }

  /**
   * Two workers of one process share the FAILED status, so a failed task of
   * one worker shows the exception of the other worker's latest failure.
   */
  lemma FailedStatusShared(w1: Worker, w2: Worker, id: int, t: Task)
    requires w1.failed == w2.failed && w2.failed.exception.Some?
    requires id in w1.previousTasks && w1.previousTasks[id] == t && t.status == Failed
    ensures w1.Details(t) == w2.Details(t)
    ensures w1.Details(t).status == "FAILED: " + w2.failed.exception.value
  {
  }

  /** A task whose input file is missing shows the NoSuchFileException with the path. */
  lemma MissingFileStatus(path: string)
    ensures StatusText(Failed, Some(ExceptionText(IO(NO_SUCH_FILE, path))))
      == "FAILED: " + (NO_SUCH_FILE + ": " + path)
  {
  }


  /**
   * A reduce task the embedded coordinator sends is run as the reducer it
   * was built for, over the files every map task wrote for that reducer in
   * the worker's map output directory, provided the worker counts the same
   * number of map tasks as the coordinator.
   */
  lemma ReduceTaskRunsItsReducer(m: int, r: int, i: int, dir: string, out: string)
    requires 0 <= i < r
    ensures var d := ReduceTasks(Embedded, m, r, None)[i];
      var run := RunOf(Task(d.taskId, d.taskType, d.inputFiles, Running), m, dir, out);
      && run.ReduceRun? && run.reducerId == i && run.outputDir == out
      && |run.inputFiles| == (if m > 0 then m else 0)
      && forall k :: 0 <= k < |run.inputFiles| ==> run.inputFiles[k] == dir + "/" + MapperOutputName(k, i)
  {
  }

  /** A map task is run under its own id, which is the id the coordinator gave it. */
  lemma MapTaskRunsItsMapper(files: seq<string>, m: int, j: int, dir: string, out: string)
    requires 0 <= j < m
    ensures var d := MapTasks(files, m, None)[j];
      RunOf(Task(d.taskId, d.taskType, d.inputFiles, Running), m, dir, out) == MapRun(d.inputFiles, j, dir)
  {
  }
}
