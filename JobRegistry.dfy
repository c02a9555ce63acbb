/**
 * The standalone coordinator's job log: a map from job id to the job's
 * name, state and finished task counts. An event about an id that was never
 * received dereferences a missing entry; that is modelled as a
 * `NullPointer` error that leaves the map unchanged.
 */
module JobRegistry {
  import opened Wrappers

  datatype JobState = QUEUED | RUNNING | COMPLETED

  datatype Job = Job(jobId: string, jobName: string, finishedMapTasksCount: int, finishedReduceTasksCount: int, state: JobState)

  datatype JobSummary = JobSummary(jobId: string, jobName: string, state: JobState)

  datatype JobDetails = JobDetails(jobId: string, jobName: string, state: JobState, finishedMapTasks: int, finishedReduceTasks: int)

  /** The updates a received job goes through. */
  datatype JobEvent = Started | MapTaskFinished | ReduceTaskFinished | Completed

  function Apply(job: Job, ev: JobEvent): Job {
    match ev
    case Started => job.(state := RUNNING)
    case Completed => job.(state := COMPLETED)
    case MapTaskFinished => job.(finishedMapTasksCount := job.finishedMapTasksCount + 1)
    case ReduceTaskFinished => job.(finishedReduceTasksCount := job.finishedReduceTasksCount + 1)
  }

  /** Each job is stored under its own id. */
  ghost predicate KeyedById(jobs: map<string, Job>) {
    forall id :: id in jobs ==> jobs[id].jobId == id
  }

  /** The summary of every job, in the order `keyOrder` lists their ids. */
  function SummariesOf(jobs: map<string, Job>, keyOrder: seq<string>): (r: seq<JobSummary>)
    requires forall id :: id in keyOrder ==> id in jobs
    ensures |r| == |keyOrder|
    ensures forall i :: 0 <= i < |keyOrder| ==>
      r[i] == JobSummary(jobs[keyOrder[i]].jobId, jobs[keyOrder[i]].jobName, jobs[keyOrder[i]].state)
  {
    seq(|keyOrder|, i requires 0 <= i < |keyOrder| =>
      JobSummary(jobs[keyOrder[i]].jobId, jobs[keyOrder[i]].jobName, jobs[keyOrder[i]].state))
  }

  class LoggerWithMetricsCalculation {
    var jobs: map<string, Job>

    ghost predicate Valid()
      reads this
    {
      KeyedById(jobs)
    }

    constructor ()
      ensures Valid() && jobs == map[]
    {
      jobs := map[];
    }

    /** `jobReceived`: a QUEUED job with no finished tasks, replacing any job with that id. */
    method JobReceived(jobId: string, jobName: string)
      requires Valid()
      modifies this
      ensures Valid()
      ensures jobs == old(jobs)[jobId := Job(jobId, jobName, 0, 0, QUEUED)]
    {
      jobs := jobs[jobId := Job(jobId, jobName, 0, 0, QUEUED)];
    }

    /** The update every other event makes to the job with that id; an unknown id fails and changes nothing. */
    method Update(jobId: string, ev: JobEvent) returns (r: Result<()>)
      requires Valid()
      modifies this
      ensures Valid()
      ensures r.Err? <==> jobId !in old(jobs)
      ensures r.Err? ==> r.error == NullPointer && jobs == old(jobs)
      ensures r.Ok? ==> jobs == old(jobs)[jobId := Apply(old(jobs)[jobId], ev)]
    {
      if jobId !in jobs {
        return Err(NullPointer);
      }
      jobs := jobs[jobId := Apply(jobs[jobId], ev)];
      return Ok(());
    }

    /** `jobStart`: the job becomes RUNNING. */
    method JobStart(jobId: string) returns (r: Result<()>)
      requires Valid()
      modifies this
      ensures Valid()
      ensures r.Err? <==> jobId !in old(jobs)
      ensures r.Err? ==> r.error == NullPointer && jobs == old(jobs)
      ensures r.Ok? ==> jobs == old(jobs)[jobId := old(jobs)[jobId].(state := RUNNING)]
    {
      r := Update(jobId, Started);
    }

    /** `mapTaskFinish`: the job counts one more finished map task. */
    method MapTaskFinish(jobId: string) returns (r: Result<()>)
      requires Valid()
      modifies this
      ensures Valid()
      ensures r.Err? <==> jobId !in old(jobs)
      ensures r.Err? ==> r.error == NullPointer && jobs == old(jobs)
      ensures r.Ok? ==> jobs == old(jobs)[jobId := old(jobs)[jobId].(finishedMapTasksCount := old(jobs)[jobId].finishedMapTasksCount + 1)]
    {
      r := Update(jobId, MapTaskFinished);
    }

    /** `reduceTaskFinish`: the job counts one more finished reduce task. */
    method ReduceTaskFinish(jobId: string) returns (r: Result<()>)
      requires Valid()
      modifies this
      ensures Valid()
      ensures r.Err? <==> jobId !in old(jobs)
      ensures r.Err? ==> r.error == NullPointer && jobs == old(jobs)
      ensures r.Ok? ==> jobs == old(jobs)[jobId := old(jobs)[jobId].(finishedReduceTasksCount := old(jobs)[jobId].finishedReduceTasksCount + 1)]
    {
      r := Update(jobId, ReduceTaskFinished);
    }

    /** `jobFinish`: the job becomes COMPLETED. */
    method JobFinish(jobId: string) returns (r: Result<()>)
      requires Valid()
      modifies this
      ensures Valid()
      ensures r.Err? <==> jobId !in old(jobs)
      ensures r.Err? ==> r.error == NullPointer && jobs == old(jobs)
      ensures r.Ok? ==> jobs == old(jobs)[jobId := old(jobs)[jobId].(state := COMPLETED)]
    {
      r := Update(jobId, Completed);
    }

    /**
     * `getJobs`: one summary per stored job. The map's iteration order is
     * not specified; it is the parameter `keyOrder`, which lists every id once.
     */
    function GetJobs(keyOrder: seq<string>): (r: seq<JobSummary>)
      requires Valid()
      requires forall id :: id in keyOrder <==> id in jobs
      requires forall i, j :: 0 <= i < j < |keyOrder| ==> keyOrder[i] != keyOrder[j]
      reads this
      ensures |r| == |jobs|
      ensures forall i :: 0 <= i < |r| ==>
        && r[i].jobId in jobs
        && r[i] == JobSummary(r[i].jobId, jobs[r[i].jobId].jobName, jobs[r[i].jobId].state)
      ensures forall i, j :: 0 <= i < j < |r| ==> r[i].jobId != r[j].jobId
      ensures forall id :: id in jobs ==> exists i :: 0 <= i < |r| && r[i].jobId == id
    {
      DistinctKeysCount(jobs, keyOrder);
      var r := SummariesOf(jobs, keyOrder);
      assert forall id :: id in jobs ==> exists i :: 0 <= i < |r| && r[i].jobId == id by {
        forall id | id in jobs ensures exists i :: 0 <= i < |r| && r[i].jobId == id {
          var k :| 0 <= k < |keyOrder| && keyOrder[k] == id;
          assert r[k].jobId == id;
        }
      }
      r
    }

    /** `getJobDetails`: the stored job's details, or nothing for an unknown id. */
    function GetJobDetails(jobId: string): (r: Option<JobDetails>)
      requires Valid()
      reads this
      ensures r.Some? <==> jobId in jobs
      ensures r.Some? ==> r.value.jobId == jobId && r.value.jobName == jobs[jobId].jobName
      ensures r.Some? ==> r.value.state == jobs[jobId].state
      ensures r.Some? ==> r.value.finishedMapTasks == jobs[jobId].finishedMapTasksCount
      ensures r.Some? ==> r.value.finishedReduceTasks == jobs[jobId].finishedReduceTasksCount
    {
      if jobId !in jobs then None
      else
        var job := jobs[jobId];
        Some(JobDetails(job.jobId, job.jobName, job.state, job.finishedMapTasksCount, job.finishedReduceTasksCount))
    }
  }

  /** A list of distinct ids that are exactly the keys of a map is as long as the map. */
  lemma {:induction false} DistinctKeysCount(jobs: map<string, Job>, keyOrder: seq<string>)
    requires forall id :: id in keyOrder <==> id in jobs
    requires forall i, j :: 0 <= i < j < |keyOrder| ==> keyOrder[i] != keyOrder[j]
    ensures |keyOrder| == |jobs|
    decreases |keyOrder|
  {
    if |keyOrder| > 0 {
      var id := keyOrder[0];
      var rest := keyOrder[1..];
      assert forall i, j :: 0 <= i < j < |rest| ==> rest[i] != rest[j] by {
        forall i, j | 0 <= i < j < |rest| ensures rest[i] != rest[j] {
          assert rest[i] == keyOrder[i + 1] && rest[j] == keyOrder[j + 1];
        }
      }
      forall x | x in rest ensures x in jobs - {id} {
        var k :| 0 <= k < |rest| && rest[k] == x;
        assert keyOrder[k + 1] == x;
      }
      forall x | x in jobs - {id} ensures x in rest {
        assert x in keyOrder;
        var k :| 0 <= k < |keyOrder| && keyOrder[k] == x;
        assert k != 0;
        assert rest[k - 1] == x;
      }
      DistinctKeysCount(jobs - {id}, rest);
    } else {
      assert jobs.Keys == {};
    }
  }

  /**
   * The job log of one id: once received, each event updates that job and
   * no other, and receiving the id again starts it afresh.
   */
  function Received(jobs: map<string, Job>, jobId: string, jobName: string, events: seq<JobEvent>): (r: map<string, Job>)
    ensures r.Keys == jobs.Keys + {jobId}
    ensures forall other :: other in jobs && other != jobId ==> r[other] == jobs[other]
    decreases |events|
  {
    if |events| == 0 then jobs[jobId := Job(jobId, jobName, 0, 0, QUEUED)]
    else
      var before := Received(jobs, jobId, jobName, events[..|events| - 1]);
      before[jobId := Apply(before[jobId], events[|events| - 1])]
  }

  /** The number of events of one kind in a series. */
  function CountOf(events: seq<JobEvent>, ev: JobEvent): (n: nat)
    ensures n <= |events|
    decreases |events|
  {
    if |events| == 0 then 0
    else CountOf(events[..|events| - 1], ev) + (if events[|events| - 1] == ev then 1 else 0)
  }

  /** The state after the last start or completion event, QUEUED if there is none. */
  function LastState(events: seq<JobEvent>): JobState
    decreases |events|
  {
    if |events| == 0 then QUEUED
    else if events[|events| - 1] == Started then RUNNING
    else if events[|events| - 1] == Completed then COMPLETED
    else LastState(events[..|events| - 1])
  }

  /**
   * A received job's details after a series of events: its counters are the
   * numbers of finished-task events, its state the last start or completion.
   */
  lemma {:induction false} DetailsCountEvents(jobs: map<string, Job>, jobId: string, jobName: string, events: seq<JobEvent>)
    ensures var job := Received(jobs, jobId, jobName, events)[jobId];
      && job == Job(jobId, jobName, CountOf(events, MapTaskFinished), CountOf(events, ReduceTaskFinished), LastState(events))
    decreases |events|
  {
    if |events| > 0 {
      DetailsCountEvents(jobs, jobId, jobName, events[..|events| - 1]);
    }
  }
}
