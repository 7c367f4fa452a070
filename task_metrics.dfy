/** `getTaskMetrics`: counts and rates over the tasks a user has not archived. */
module TaskMetrics {
  import opened Results
  import opened Dates
  import opened TaskEntity
  import opened Queries

  datatype Metrics = Metrics(
    totalTasks: nat,
    completedTasks: nat,
    pendingTasks: int,
    completionRate: real,
    completedOnTime: nat,
    onTimeRate: real)

  predicate IsCompleted(t: Task) {
    t.isCompleted
  }

  predicate HasPlannedDate(t: Task) {
    t.plannedDate.Some?
  }

  /** Completed, with a completion instant no later than midnight (UTC) at
      the start of the planned day. */
  predicate CompletedOnTime(t: Task)
    ensures CompletedOnTime(t) ==> IsCompleted(t) && HasPlannedDate(t)
  {
    && t.plannedDate.Some?
    && t.isCompleted
    && t.completionDate.Some?
    && t.completionDate.value <= StartOfDay(t.plannedDate.value)
  }

  /** `part / whole * 100`, or 0 when `whole` is 0. */
  function Rate(part: nat, whole: nat): (r: real)
    ensures whole == 0 ==> r == 0.0
    ensures whole > 0 ==> r * (whole as real) == (part as real) * 100.0
    ensures part <= whole ==> 0.0 <= r <= 100.0
  {
    if whole > 0 then (part as real) / (whole as real) * 100.0 else 0.0
  }

  function MetricsFromCounts(total: nat, completed: nat, planned: nat, onTime: nat): Metrics {
    Metrics(total, completed, total - completed, Rate(completed, total), onTime, Rate(onTime, planned))
  }

  /** The metrics of the listed tasks, computed as the filters compute them. */
  function ComputeMetrics(tasks: seq<Task>): (m: Metrics)
    ensures m.totalTasks == |tasks|
    ensures m.completedTasks <= m.totalTasks && m.pendingTasks == m.totalTasks - m.completedTasks
  {
    var withPlannedDate := Filter(tasks, HasPlannedDate);
    MetricsFromCounts(|tasks|, |Filter(tasks, IsCompleted)|, |withPlannedDate|,
                      |Filter(withPlannedDate, CompletedOnTime)|)
  }

  /** The metrics of a set of tasks, by cardinalities. */
  ghost function MetricsOfSet(S: set<Task>): Metrics {
    MetricsFromCounts(|S|, |set t | t in S && IsCompleted(t)|, |set t | t in S && HasPlannedDate(t)|,
                      |set t | t in S && HasPlannedDate(t) && CompletedOnTime(t)|)
  }

  /** Whatever order the tasks are listed in, the metrics are those of the set. */
  lemma ListedMetrics(tasks: seq<Task>, S: set<Task>)
    requires ListsExactly(tasks, S)
    ensures ComputeMetrics(tasks) == MetricsOfSet(S)
  {
    ListedCount(tasks, S);
    ListedFilter(tasks, S, IsCompleted);
    ListedCount(Filter(tasks, IsCompleted), set t | t in S && IsCompleted(t));
    var planned := set t | t in S && HasPlannedDate(t);
    var withPlannedDate := Filter(tasks, HasPlannedDate);
    ListedFilter(tasks, S, HasPlannedDate);
    ListedCount(withPlannedDate, planned);
    ListedFilter(withPlannedDate, planned, CompletedOnTime);
    assert (set t | t in planned && CompletedOnTime(t)) == (set t | t in S && HasPlannedDate(t) && CompletedOnTime(t));
    ListedCount(Filter(withPlannedDate, CompletedOnTime), set t | t in planned && CompletedOnTime(t));
  }

  /** The relations between the counts, and the range of the rates. */
  lemma MetricsAreConsistent(tasks: seq<Task>)
    ensures var m := ComputeMetrics(tasks);
      && 0 <= m.pendingTasks == m.totalTasks - m.completedTasks
      && m.completedOnTime <= m.completedTasks
      && m.completedOnTime <= |Filter(tasks, HasPlannedDate)| <= m.totalTasks
      && 0.0 <= m.completionRate <= 100.0
      && 0.0 <= m.onTimeRate <= 100.0
      && (m.totalTasks == 0 ==> m.completionRate == 0.0 && m.onTimeRate == 0.0)
  {
    FilterTwiceCount(tasks, HasPlannedDate, CompletedOnTime, IsCompleted);
  }

  /** A completed task without a planned date counts for the completion rate
      and leaves the on-time count and its denominator alone. */
  lemma CompletedWithoutPlannedDate(t: Task)
    requires t.isCompleted && t.plannedDate == None
    ensures ComputeMetrics([t]) == Metrics(1, 1, 0, 100.0, 0, 0.0)
  {
    assert Filter([t], HasPlannedDate) == [];
  }

  /** Completing at the very start of the planned day is on time; completing
      the day after is not. */
  lemma OnTimeAgainstPlannedDay(b: Task, c: Task)
    requires b.isCompleted && b.plannedDate == Some(CalendarDate(2025, 1, 10))
    requires b.completionDate == Some(StartOfDay(CalendarDate(2025, 1, 10)))
    requires c.isCompleted && c.plannedDate == Some(CalendarDate(2025, 1, 5))
    requires c.completionDate == Some(StartOfDay(CalendarDate(2025, 1, 6)))
    ensures ComputeMetrics([b, c]) == Metrics(2, 2, 0, 100.0, 1, 50.0)
  {
    assert CompletedOnTime(b) && !CompletedOnTime(c);
    assert Filter([b, c], HasPlannedDate) == [b, c] by {
      assert [b, c][1..] == [c];
    }
    assert Filter([b, c], CompletedOnTime) == [b] by {
      assert [b, c][1..] == [c];
    }
    assert Filter([b, c], IsCompleted) == [b, c] by {
      assert [b, c][1..] == [c];
    }
  }
}
