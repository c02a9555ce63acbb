/**
 * The embedded worker endpoint's `WorkerManager`: a single task slot and a
 * flag telling whether a task is running. Waking the threads that wait for
 * a task is not modelled.
 */
module WorkerManagers {
  import opened Wrappers
  import opened Coordinators

  datatype Task = Task(taskId: int, taskType: TaskType, inputFiles: seq<string>)

  const ALREADY_IN_PROGRESS := "Error: Task already in progress"

  class WorkerManager {
    var currentTask: Option<Task>
    var isTaskRunning: bool

    /** A task is running exactly when the slot holds one. */
    predicate Valid()
      reads this
    {
      isTaskRunning <==> currentTask.Some?
    }

    constructor ()
      ensures Valid() && currentTask == None && !isTaskRunning
    {
      currentTask := None;
      isTaskRunning := false;
    }

    /**
     * `addTask`: refused with an error message while a task runs, and then
     * nothing changes; otherwise the task fills the slot and runs.
     */
    method AddTask(id: int, taskType: TaskType, inputFiles: seq<string>) returns (error: Option<string>)
      requires Valid()
      modifies this
      ensures Valid()
      ensures error.Some? <==> old(isTaskRunning)
      ensures old(isTaskRunning) ==>
        error == Some(ALREADY_IN_PROGRESS) && currentTask == old(currentTask) && isTaskRunning
      ensures !old(isTaskRunning) ==>
        error == None && currentTask == Some(Task(id, taskType, inputFiles)) && isTaskRunning
    {
      if isTaskRunning {
        return Some(ALREADY_IN_PROGRESS);
      }
      currentTask := Some(Task(id, taskType, inputFiles));
      isTaskRunning := true;
      return None;
    }

    /** `getCurrentTask`: the task in the slot, shown only while it runs. */
    function GetCurrentTask(): (r: Option<Task>)
      reads this
      ensures r.Some? <==> currentTask.Some? && isTaskRunning
      ensures r.Some? ==> r == currentTask
    {
      if currentTask.Some? && isTaskRunning then currentTask else None
    }

    /** `completeCurrentTask`: empties the slot and stops running. */
    method CompleteCurrentTask()
      modifies this
      ensures Valid() && currentTask == None && !isTaskRunning
    {
      isTaskRunning := false;
      currentTask := None;
    }
  }

  /** Under the invariant, the slot's task is shown exactly when there is one. */
  lemma CurrentTaskIsSlot(m: WorkerManager)
    requires m.Valid()
    ensures m.GetCurrentTask() == m.currentTask
  {
  }
}
