/**
 * The embedded coordinator's job log: a list of job entries, one per
 * `jobAdd`, each with the job's start date (which names the job), a status
 * and the number of finished map and reduce tasks. Every event applies to
 * all entries with the given date; the job list is sorted by date.
 */
module JobMetrics {
  import opened Wrappers
  import opened JavaString
  import opened Ordering
  import opened PredefinedFunctions

  const PENDING := "PENDING"
  const IN_PROGRESS := "IN_PROGRESS"
  const COMPLETED := "COMPLETED"

  datatype JobEntry = JobEntry(jobStartDate: string, status: string, finishedMapTasksCount: int, finishedReduceTasksCount: int)

  /** `JobInfo`: what `getJobInfo` reports. */
  datatype JobInfo = JobInfo(date: string, status: string, completedMapJobs: int, completedReduceJobs: int)

  /** The events the job log receives, with the job's start date. */
  datatype LogEvent =
    | JobAdd(date: string)
    | JobStart(date: string)
    | MapTaskStart(date: string, taskId: int)
    | MapTaskFinish(date: string, taskId: int)
    | ReduceTaskStart(date: string, taskId: int)
    | ReduceTaskFinish(date: string, taskId: int)
    | JobFinish(date: string)

  /** What an event does to one entry whose date matches. */
  function Touch(e: JobEntry, ev: LogEvent): JobEntry {
    match ev
    case JobStart(_) => e.(status := IN_PROGRESS)
    case JobFinish(_) => e.(status := COMPLETED)
    case MapTaskFinish(_, _) => e.(finishedMapTasksCount := e.finishedMapTasksCount + 1)
    case ReduceTaskFinish(_, _) => e.(finishedReduceTasksCount := e.finishedReduceTasksCount + 1)
    case _ => e
  }

  /** `ev` applied to every entry of `jobs` with its date; the others are left alone. */
  function TouchMatching(jobs: seq<JobEntry>, ev: LogEvent): (r: seq<JobEntry>)
    ensures |r| == |jobs|
    ensures forall i :: 0 <= i < |jobs| ==> r[i] == if jobs[i].jobStartDate == ev.date then Touch(jobs[i], ev) else jobs[i]
  {
    seq(|jobs|, i requires 0 <= i < |jobs| => if jobs[i].jobStartDate == ev.date then Touch(jobs[i], ev) else jobs[i])
  }

  /** The job list after one event. */
  function Step(jobs: seq<JobEntry>, ev: LogEvent): seq<JobEntry> {
    match ev
    case JobAdd(date) => jobs + [JobEntry(date, PENDING, 0, 0)]
    case _ => TouchMatching(jobs, ev)
  }

  /** The job list after a series of events, in order. */
  function Replay(jobs: seq<JobEntry>, events: seq<LogEvent>): seq<JobEntry>
    decreases |events|
  {
    if |events| == 0 then jobs else Replay(Step(jobs, events[0]), events[1..])
  }

  /** The index of the first entry with that date, if any. */
  function FirstWithDate(jobs: seq<JobEntry>, date: string, from: nat): (i: Option<nat>)
    ensures i.Some? ==> from <= i.value < |jobs| && jobs[i.value].jobStartDate == date
    ensures i.Some? ==> forall j :: from <= j < i.value ==> jobs[j].jobStartDate != date
    ensures i.None? ==> forall j :: from <= j < |jobs| ==> jobs[j].jobStartDate != date
    decreases |jobs| - from
  {
    if from >= |jobs| then None
    else if jobs[from].jobStartDate == date then Some(from)
    else FirstWithDate(jobs, date, from + 1)
  }

  function InfoOf(e: JobEntry): JobInfo {
    JobInfo(e.jobStartDate, e.status, e.finishedMapTasksCount, e.finishedReduceTasksCount)
  }

  /** The (date, status) of every entry, in list order. */
  function Summaries(jobs: seq<JobEntry>): (r: seq<(string, string)>)
    ensures |r| == |jobs| && forall i :: 0 <= i < |jobs| ==> r[i] == (jobs[i].jobStartDate, jobs[i].status)
  {
    seq(|jobs|, i requires 0 <= i < |jobs| => (jobs[i].jobStartDate, jobs[i].status))
  }

  class LoggerWithMetricsCalculation {
    var jobs: seq<JobEntry>

    constructor ()
      ensures jobs == []
    {
      jobs := [];
    }

    /** `jobAdd`: a new PENDING entry with no finished tasks, last. */
    method JobAdd(jobStartDate: string)
      modifies this
      ensures jobs == Step(old(jobs), LogEvent.JobAdd(jobStartDate))
      ensures jobs == old(jobs) + [JobEntry(jobStartDate, PENDING, 0, 0)]
    {
      jobs := jobs + [JobEntry(jobStartDate, PENDING, 0, 0)];
    }

    /** The loop each of the date-matching events runs: `ev` applied to every entry with its date. */
    method ForEachMatching(ev: LogEvent)
      requires !ev.JobAdd?
      modifies this
      ensures jobs == Step(old(jobs), ev)
    {
      var i := 0;
      while i < |jobs|
        invariant 0 <= i <= |jobs| && |jobs| == |old(jobs)|
        invariant jobs[..i] == TouchMatching(old(jobs), ev)[..i]
        invariant jobs[i..] == old(jobs)[i..]
      {
        if jobs[i].jobStartDate == ev.date {
          jobs := jobs[i := Touch(jobs[i], ev)];
        }
        i := i + 1;
      }
      assert jobs == jobs[..i];
    }

    /** `jobStart`: every entry with that date becomes IN_PROGRESS. */
    method JobStart(jobStartDate: string)
      modifies this
      ensures jobs == Step(old(jobs), LogEvent.JobStart(jobStartDate))
    {
      ForEachMatching(LogEvent.JobStart(jobStartDate));
    }

    /** `mapTaskStart`: changes nothing. */
    method MapTaskStart(jobStartDate: string, taskId: int)
      ensures jobs == Step(jobs, LogEvent.MapTaskStart(jobStartDate, taskId))
    {
    }

    /** `mapTaskFinish`: every entry with that date counts one more finished map task. */
    method MapTaskFinish(jobStartDate: string, taskId: int)
      modifies this
      ensures jobs == Step(old(jobs), LogEvent.MapTaskFinish(jobStartDate, taskId))
    {
      ForEachMatching(LogEvent.MapTaskFinish(jobStartDate, taskId));
    }

    /** `reduceTaskStart`: changes nothing. */
    method ReduceTaskStart(jobStartDate: string, taskId: int)
      ensures jobs == Step(jobs, LogEvent.ReduceTaskStart(jobStartDate, taskId))
    {
    }

    /** `reduceTaskFinish`: every entry with that date counts one more finished reduce task. */
    method ReduceTaskFinish(jobStartDate: string, taskId: int)
      modifies this
      ensures jobs == Step(old(jobs), LogEvent.ReduceTaskFinish(jobStartDate, taskId))
    {
      ForEachMatching(LogEvent.ReduceTaskFinish(jobStartDate, taskId));
    }

    /** `jobFinish`: every entry with that date becomes COMPLETED. */
    method JobFinish(jobStartDate: string)
      modifies this
      ensures jobs == Step(old(jobs), LogEvent.JobFinish(jobStartDate))
    {
      ForEachMatching(LogEvent.JobFinish(jobStartDate));
    }

    /**
     * `getJobs`: one (date, status) per entry, sorted by date with
     * `String.compareTo`; entries with equal dates keep their list order.
     */
    method GetJobs() returns (r: seq<(string, string)>)
      ensures r == SortByKey(Summaries(jobs), StringKeyComparator)
      ensures SortedByKey(r, StringKeyComparator)
      ensures multiset(r) == multiset(Summaries(jobs))
    {
      var jobsToReturn := [];
      var i := 0;
      while i < |jobs|
        invariant 0 <= i <= |jobs|
        invariant jobsToReturn == Summaries(jobs)[..i]
      {
        jobsToReturn := jobsToReturn + [(jobs[i].jobStartDate, jobs[i].status)];
        i := i + 1;
      }
      assert jobsToReturn == Summaries(jobs);
      StringKeyComparatorValid();
      SortByKeySorted(jobsToReturn, StringKeyComparator);
      r := SortByKey(jobsToReturn, StringKeyComparator);
    }

    /** `getJobInfo`: the first entry with that date, or nothing. */
    method GetJobInfo(jobStartDate: string) returns (r: Option<JobInfo>)
      ensures r.Some? <==> exists i :: 0 <= i < |jobs| && jobs[i].jobStartDate == jobStartDate
      ensures r == match FirstWithDate(jobs, jobStartDate, 0)
                   case Some(i) => Some(InfoOf(jobs[i]))
                   case None => None
    {
      var i := 0;
      while i < |jobs|
        invariant 0 <= i <= |jobs|
        invariant FirstWithDate(jobs, jobStartDate, i) == FirstWithDate(jobs, jobStartDate, 0)
      {
        if jobs[i].jobStartDate == jobStartDate {
          return Some(InfoOf(jobs[i]));
        }
        i := i + 1;
      }
      return None;
    }
  }

  /**
   * The events for one job only touch that job's entries: an entry with
   * another date is the same before and after.
   */
  lemma {:induction false} OtherJobsUntouched(jobs: seq<JobEntry>, events: seq<LogEvent>, i: nat)
    requires i < |jobs|
    requires forall k :: 0 <= k < |events| ==> events[k].date != jobs[i].jobStartDate
    ensures |Replay(jobs, events)| >= |jobs| && Replay(jobs, events)[i] == jobs[i]
    decreases |events|
  {
    if |events| > 0 {
      OtherJobsUntouched(Step(jobs, events[0]), events[1..], i);
    }
  }

  /** Replaying a series of events one part after the other. */
  lemma {:induction false} ReplayAppend(jobs: seq<JobEntry>, a: seq<LogEvent>, b: seq<LogEvent>)
    ensures Replay(jobs, a + b) == Replay(Replay(jobs, a), b)
    decreases |a|
  {
    if |a| > 0 {
      assert (a + b)[1..] == a[1..] + b;
      ReplayAppend(Step(jobs, a[0]), a[1..], b);
    } else {
      assert a + b == b;
    }
  }

  /**
   * For a job added once, the counters are the numbers of finish events of
   * each kind received since, the start events change nothing, and the
   * status is that of the last start or finish event (PENDING if none).
   */
  function Expected(date: string, events: seq<LogEvent>, e: JobEntry): JobEntry
    decreases |events|
  {
    if |events| == 0 then e
    else Expected(date, events[1..], if events[0].date == date then Touch(e, events[0]) else e)
  }

  /** The entry of a job that is added once evolves as `Expected` says, wherever it sits in the list. */
  lemma {:induction false} EntryFollowsEvents(jobs: seq<JobEntry>, events: seq<LogEvent>, i: nat)
    requires i < |jobs|
    requires forall k :: 0 <= k < |events| ==> events[k] != LogEvent.JobAdd(jobs[i].jobStartDate)
    ensures |Replay(jobs, events)| >= |jobs|
    ensures Replay(jobs, events)[i] == Expected(jobs[i].jobStartDate, events, jobs[i])
    decreases |events|
  {
    if |events| > 0 {
      var next := Step(jobs, events[0]);
      assert next[i] == if events[0].date == jobs[i].jobStartDate then Touch(jobs[i], events[0]) else jobs[i];
      assert forall k :: 0 <= k < |events[1..]| ==> events[1..][k] == events[k + 1];
      EntryFollowsEvents(next, events[1..], i);
    }
  }

  /** How many events of a series finish a map task of the job started at `date`. */
  function MapFinishes(date: string, events: seq<LogEvent>): (n: nat)
    ensures n <= |events|
    decreases |events|
  {
    if |events| == 0 then 0
    else
      var ev := events[|events| - 1];
      MapFinishes(date, events[..|events| - 1]) + (if ev.MapTaskFinish? && ev.date == date then 1 else 0)
  }

  /** How many events of a series finish a reduce task of the job started at `date`. */
  function ReduceFinishes(date: string, events: seq<LogEvent>): (n: nat)
    ensures n <= |events|
    decreases |events|
  {
    if |events| == 0 then 0
    else
      var ev := events[|events| - 1];
      ReduceFinishes(date, events[..|events| - 1]) + (if ev.ReduceTaskFinish? && ev.date == date then 1 else 0)
  }

  /** The status set by the last start or finish of the job started at `date`, `status` if there is none. */
  function LastStatus(date: string, events: seq<LogEvent>, status: string): string
    decreases |events|
  {
    if |events| == 0 then status
    else
      var ev := events[|events| - 1];
      if ev.date == date && ev.JobStart? then IN_PROGRESS
      else if ev.date == date && ev.JobFinish? then COMPLETED
      else LastStatus(date, events[..|events| - 1], status)
  }

  /** One more event at the end of a series acts on the entry last. */
  lemma {:induction false} ExpectedSnoc(date: string, events: seq<LogEvent>, e: JobEntry, ev: LogEvent)
    ensures Expected(date, events + [ev], e)
            == var x := Expected(date, events, e); if ev.date == date then Touch(x, ev) else x
    decreases |events|
  {
    if |events| == 0 {
      assert (events + [ev])[1..] == [];
    } else {
      assert (events + [ev])[1..] == events[1..] + [ev];
      ExpectedSnoc(date, events[1..], if events[0].date == date then Touch(e, events[0]) else e, ev);
    }
  }

  /**
   * The promise behind `Expected`: the counters grow by the number of finish
   * events of each kind, and the status is that of the last start or finish.
   */
  lemma {:induction false} ExpectedCounts(date: string, events: seq<LogEvent>, e: JobEntry)
    ensures Expected(date, events, e)
            == e.(status := LastStatus(date, events, e.status),
                  finishedMapTasksCount := e.finishedMapTasksCount + MapFinishes(date, events),
                  finishedReduceTasksCount := e.finishedReduceTasksCount + ReduceFinishes(date, events))
    decreases |events|
  {
    if |events| > 0 {
      var init, ev := events[..|events| - 1], events[|events| - 1];
      assert events == init + [ev];
      ExpectedSnoc(date, init, e, ev);
      ExpectedCounts(date, init, e);
    }
  }

  /**
   * A job added once has, after any series of events, as many finished
   * tasks of each kind as finish events for its date added to what it had,
   * and the status of its last start or finish event.
   */
  lemma EntryCountsEvents(jobs: seq<JobEntry>, events: seq<LogEvent>, i: nat)
    requires i < |jobs|
    requires forall k :: 0 <= k < |events| ==> events[k] != LogEvent.JobAdd(jobs[i].jobStartDate)
    ensures |Replay(jobs, events)| >= |jobs|
    ensures var d := jobs[i].jobStartDate;
            Replay(jobs, events)[i]
            == JobEntry(d, LastStatus(d, events, jobs[i].status),
                        jobs[i].finishedMapTasksCount + MapFinishes(d, events),
                        jobs[i].finishedReduceTasksCount + ReduceFinishes(d, events))
  {
    EntryFollowsEvents(jobs, events, i);
    ExpectedCounts(jobs[i].jobStartDate, events, jobs[i]);
  }

  /** One event of a series, replayed. */
  lemma ReplayFrom(jobs: seq<JobEntry>, events: seq<LogEvent>, k: nat)
    requires k < |events|
    ensures Replay(jobs, events[k..]) == Replay(Step(jobs, events[k]), events[k + 1..])
  {
    assert events[k..][1..] == events[k + 1..];
  }

  /**
   * The unit test's first job: added, started, one map task started and
   * finished, one reduce task started and finished, finished: COMPLETED,
   * with one finished task of each kind.
   */
  lemma FirstJobScenario(d: string, m: int, r: int)
    ensures var events := [LogEvent.JobAdd(d), LogEvent.JobStart(d), LogEvent.MapTaskStart(d, m), LogEvent.MapTaskFinish(d, m),
                           LogEvent.ReduceTaskStart(d, r), LogEvent.ReduceTaskFinish(d, r), LogEvent.JobFinish(d)];
      Replay([], events) == [JobEntry(d, COMPLETED, 1, 1)]
  {
    var events := [LogEvent.JobAdd(d), LogEvent.JobStart(d), LogEvent.MapTaskStart(d, m), LogEvent.MapTaskFinish(d, m),
                   LogEvent.ReduceTaskStart(d, r), LogEvent.ReduceTaskFinish(d, r), LogEvent.JobFinish(d)];
    var states := [[], [JobEntry(d, PENDING, 0, 0)], [JobEntry(d, IN_PROGRESS, 0, 0)], [JobEntry(d, IN_PROGRESS, 0, 0)],
                   [JobEntry(d, IN_PROGRESS, 1, 0)], [JobEntry(d, IN_PROGRESS, 1, 0)], [JobEntry(d, IN_PROGRESS, 1, 1)],
                   [JobEntry(d, COMPLETED, 1, 1)]];
    ReplayChain(events, states);
  }

  /** A series of events whose every step leads from one listed state to the next replays to the last state. */
  lemma {:induction false} ReplayChain(events: seq<LogEvent>, states: seq<seq<JobEntry>>)
    requires |states| == |events| + 1
    requires forall k :: 0 <= k < |events| ==> Step(states[k], events[k]) == states[k + 1]
    ensures Replay(states[0], events) == states[|events|]
    decreases |events|
  {
    if |events| > 0 {
      ReplayFrom(states[0], events, 0);
      assert events[0..] == events;
      ReplayChain(events[1..], states[1..]);
    }
  }

  /**
   * A job whose reduce tasks have not finished yet is still IN_PROGRESS,
   * while a job added after it can already be COMPLETED: the entries do not
   * interfere.
   */
  lemma InterleavedJobsScenario(d2: string, d3: string)
    requires d2 != d3
    ensures var events := [LogEvent.JobAdd(d2), LogEvent.JobAdd(d3), LogEvent.JobStart(d2), LogEvent.JobStart(d3),
                           LogEvent.MapTaskFinish(d2, 0), LogEvent.MapTaskFinish(d2, 1), LogEvent.MapTaskFinish(d2, 3),
                           LogEvent.MapTaskFinish(d2, 2), LogEvent.MapTaskFinish(d3, 0), LogEvent.MapTaskFinish(d3, 1),
                           LogEvent.ReduceTaskFinish(d3, 1), LogEvent.ReduceTaskFinish(d3, 0), LogEvent.JobFinish(d3)];
      Replay([], events) == [JobEntry(d2, IN_PROGRESS, 4, 0), JobEntry(d3, COMPLETED, 2, 2)]
  {
    var events := [LogEvent.JobAdd(d2), LogEvent.JobAdd(d3), LogEvent.JobStart(d2), LogEvent.JobStart(d3),
                   LogEvent.MapTaskFinish(d2, 0), LogEvent.MapTaskFinish(d2, 1), LogEvent.MapTaskFinish(d2, 3),
                   LogEvent.MapTaskFinish(d2, 2), LogEvent.MapTaskFinish(d3, 0), LogEvent.MapTaskFinish(d3, 1),
                   LogEvent.ReduceTaskFinish(d3, 1), LogEvent.ReduceTaskFinish(d3, 0), LogEvent.JobFinish(d3)];
    var states := [[], [JobEntry(d2, PENDING, 0, 0)],
                   [JobEntry(d2, PENDING, 0, 0), JobEntry(d3, PENDING, 0, 0)],
                   [JobEntry(d2, IN_PROGRESS, 0, 0), JobEntry(d3, PENDING, 0, 0)],
                   [JobEntry(d2, IN_PROGRESS, 0, 0), JobEntry(d3, IN_PROGRESS, 0, 0)],
                   [JobEntry(d2, IN_PROGRESS, 1, 0), JobEntry(d3, IN_PROGRESS, 0, 0)],
                   [JobEntry(d2, IN_PROGRESS, 2, 0), JobEntry(d3, IN_PROGRESS, 0, 0)],
                   [JobEntry(d2, IN_PROGRESS, 3, 0), JobEntry(d3, IN_PROGRESS, 0, 0)],
                   [JobEntry(d2, IN_PROGRESS, 4, 0), JobEntry(d3, IN_PROGRESS, 0, 0)],
                   [JobEntry(d2, IN_PROGRESS, 4, 0), JobEntry(d3, IN_PROGRESS, 1, 0)],
                   [JobEntry(d2, IN_PROGRESS, 4, 0), JobEntry(d3, IN_PROGRESS, 2, 0)],
                   [JobEntry(d2, IN_PROGRESS, 4, 0), JobEntry(d3, IN_PROGRESS, 2, 1)],
                   [JobEntry(d2, IN_PROGRESS, 4, 0), JobEntry(d3, IN_PROGRESS, 2, 2)],
                   [JobEntry(d2, IN_PROGRESS, 4, 0), JobEntry(d3, COMPLETED, 2, 2)]];
    ReplayChain(events, states);
  }

  /** Finishing a job again, after more finished tasks, leaves it COMPLETED and keeps counting. */
  lemma RepeatedFinishScenario(d: string, e: JobEntry)
    requires e.jobStartDate == d
    ensures var events := [LogEvent.ReduceTaskFinish(d, 1), LogEvent.ReduceTaskFinish(d, 0), LogEvent.JobFinish(d),
                           LogEvent.ReduceTaskFinish(d, 1), LogEvent.JobFinish(d)];
      Replay([e], events) == [e.(status := COMPLETED, finishedReduceTasksCount := e.finishedReduceTasksCount + 3)]
  {
    var events := [LogEvent.ReduceTaskFinish(d, 1), LogEvent.ReduceTaskFinish(d, 0), LogEvent.JobFinish(d),
                   LogEvent.ReduceTaskFinish(d, 1), LogEvent.JobFinish(d)];
    var n := e.finishedReduceTasksCount;
    var states := [[e], [e.(finishedReduceTasksCount := n + 1)], [e.(finishedReduceTasksCount := n + 2)],
                   [e.(status := COMPLETED, finishedReduceTasksCount := n + 2)],
                   [e.(status := COMPLETED, finishedReduceTasksCount := n + 3)],
                   [e.(status := COMPLETED, finishedReduceTasksCount := n + 3)]];
    ReplayChain(events, states);
  }

  /** Dates already in ascending order come back from `getJobs` in that same order. */
  lemma JobsInDateOrder(jobs: seq<JobEntry>)
    requires forall i, j :: 0 <= i < j < |jobs| ==> CompareTo(jobs[i].jobStartDate, jobs[j].jobStartDate) < 0
    ensures SortByKey(Summaries(jobs), StringKeyComparator) == Summaries(jobs)
  {
    StringKeyComparatorValid();
    SortByKeyOfSorted(Summaries(jobs), StringKeyComparator);
  }
}
