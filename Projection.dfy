/** The occurrence projector (script.js, TaskManager.generateFutureTasks,
    shouldTaskBeActiveOnDate, isTaskCompletedOnDate, getUnfinishedTasks,
    getCompletedSingleTasks, and the grouping in renderUnfinishedTasksList). */
module Projection {
  import opened Domain
  import opened Seqs
  import opened TaskStore

  /** A daily task starts on its startDate, or else on the day it was created. */
  function StartOf(t: Task): Day
  {
    if t.startDate.Some? then t.startDate.value else t.createdDay
  }

  /** shouldTaskBeActiveOnDate. The projected day is a timestamp carrying the
      current time of day and is labelled by its UTC date, while a date
      string parses to UTC midnight; so the task is already over on the day
      its endDate names (`date > endDate`), and active from its startDate on. */
  predicate ActiveOn(t: Task, d: Day)
  {
    StartOf(t) <= d && (t.endDate.None? || d < t.endDate.value)
  }

  /** isTaskCompletedOnDate: some record has that task id and day. */
  predicate IsCompletedOn(rs: seq<Record>, k: Id, d: Day)
  {
    exists i :: 0 <= i < |rs| && rs[i].taskId == k && rs[i].date == d
  }

  function OccurrenceOf(t: Task, rs: seq<Record>, d: Day): Occurrence
  {
    Occurrence(t, d, IsCompletedOn(rs, t.id, d))
  }

  /** The daily half of one day of the projection: each active daily task, in
      list order. */
  function DailyOccurrences(daily: seq<Task>, rs: seq<Record>, d: Day): (r: seq<Occurrence>)
    ensures |r| <= |daily|
    ensures forall o :: o in r ==> o.task in daily && ActiveOn(o.task, d) && o == OccurrenceOf(o.task, rs, d)
    ensures forall t :: t in daily && ActiveOn(t, d) ==> OccurrenceOf(t, rs, d) in r
  {
    if |daily| == 0 then []
    else
      var t := daily[|daily| - 1];
      assert forall x :: x in daily ==> x in daily[..|daily| - 1] || x == t;
      DailyOccurrences(daily[..|daily| - 1], rs, d) + (if ActiveOn(t, d) then [OccurrenceOf(t, rs, d)] else [])
  }

  /** The single half of one day: each single task scheduled on that day. */
  function SingleOccurrences(single: seq<Task>, rs: seq<Record>, d: Day): (r: seq<Occurrence>)
    ensures |r| <= |single|
    ensures forall o :: o in r ==> o.task in single && o.task.date == Some(d) && o == OccurrenceOf(o.task, rs, d)
    ensures forall t :: t in single && t.date == Some(d) ==> OccurrenceOf(t, rs, d) in r
  {
    if |single| == 0 then []
    else
      var t := single[|single| - 1];
      assert forall x :: x in single ==> x in single[..|single| - 1] || x == t;
      SingleOccurrences(single[..|single| - 1], rs, d) + (if t.date == Some(d) then [OccurrenceOf(t, rs, d)] else [])
  }

  /** One day of futureTasks: daily tasks first, then single tasks. */
  function DayOccurrences(daily: seq<Task>, single: seq<Task>, rs: seq<Record>, d: Day): seq<Occurrence>
  {
    DailyOccurrences(daily, rs, d) + SingleOccurrences(single, rs, d)
  }

  /** What the projection shows for one day, stated without the list
      structure: an occurrence is listed iff its task is an active daily task
      or a single task scheduled that day, and it is marked completed iff some
      record has that task id and day. */
  lemma ProjectionMeaning(daily: seq<Task>, single: seq<Task>, rs: seq<Record>, d: Day, o: Occurrence)
    ensures o in DayOccurrences(daily, single, rs, d) <==>
              o.date == d &&
              ((o.task in daily && ActiveOn(o.task, d)) || (o.task in single && o.task.date == Some(d))) &&
              (o.completed <==> exists r :: r in rs && r.taskId == o.task.id && r.date == d)
  {
    if o.date == d && (o.completed <==> exists r :: r in rs && r.taskId == o.task.id && r.date == d) {
      assert o == OccurrenceOf(o.task, rs, d) by {
        if o.completed {
          var r :| r in rs && r.taskId == o.task.id && r.date == d;
          var i :| 0 <= i < |rs| && rs[i] == r;
        }
      }
    }
    if o in DayOccurrences(daily, single, rs, d) {
      assert o == OccurrenceOf(o.task, rs, d);
      if IsCompletedOn(rs, o.task.id, d) {
        var i :| 0 <= i < |rs| && rs[i].taskId == o.task.id && rs[i].date == d;
        assert rs[i] in rs;
      }
    }
  }

  // ---------------------------------------------------- unfinished tasks

  /** isTaskCompletedOnDate(task.id, task.date) for a single task; a task
      without a date has no record on its (missing) date. */
  predicate SingleDone(rs: seq<Record>, t: Task)
  {
    t.date.Some? && IsCompletedOn(rs, t.id, t.date.value)
  }

  /** The sort key of getUnfinishedTasks: the task's date. */
  function DateKey(t: Task): int
  {
    if t.date.Some? then t.date.value else 0
  }

  /** getUnfinishedTasks: the single tasks without a record on their date,
      sorted by date (stable). */
  function UnfinishedTasks(single: seq<Task>, rs: seq<Record>): (r: seq<Task>)
    ensures SortedBy(r, DateKey)
    ensures forall t :: t in r <==> t in single && !SingleDone(rs, t)
  {
    var f := Filter(single, (t: Task) => !SingleDone(rs, t));
    var u := SortBy(f, DateKey);
    assert forall t :: t in u <==> t in multiset(u);
    assert forall t :: t in f <==> t in multiset(f);
    u
  }

  /** A completed single task with the first record of it on its date. */
  datatype CompletedEntry = CompletedEntry(task: Task, record: Record)

  /** The first record with the task's id on its date. */
  function FirstRecordOn(rs: seq<Record>, k: Id, d: Day): (r: Option<Record>)
    ensures r.Some? <==> IsCompletedOn(rs, k, d)
    ensures r.Some? ==> r.value in rs && r.value.taskId == k && r.value.date == d
  {
    if |rs| == 0 then None
    else if rs[0].taskId == k && rs[0].date == d then Some(rs[0])
    else
      var r := FirstRecordOn(rs[1..], k, d);
      assert IsCompletedOn(rs, k, d) <==> IsCompletedOn(rs[1..], k, d) by {
        if IsCompletedOn(rs, k, d) {
          var i :| 0 <= i < |rs| && rs[i].taskId == k && rs[i].date == d;
          assert rs[1..][i - 1] == rs[i];
        }
        if IsCompletedOn(rs[1..], k, d) {
          var i :| 0 <= i < |rs[1..]| && rs[1..][i].taskId == k && rs[1..][i].date == d;
          assert rs[i + 1] == rs[1..][i];
        }
      }
      r
  }

  /** The sort key of getCompletedSingleTasks: the completion time of the
      task's first record on its date, negated so that the ascending sort puts
      the latest completion first. */
  function CompletedKey(rs: seq<Record>, t: Task): int
  {
    if t.date.Some? then
      var r := FirstRecordOn(rs, t.id, t.date.value);
      if r.Some? then -r.value.completedAt else 0
    else 0
  }

  /** The completed single tasks in the order getCompletedSingleTasks returns
      them: latest completion first (stable among equal times). */
  function CompletedSingleTasks(single: seq<Task>, rs: seq<Record>): (r: seq<Task>)
    ensures SortedBy(r, t => CompletedKey(rs, t))
    ensures forall t :: t in r <==> t in single && SingleDone(rs, t)
  {
    var f := Filter(single, t => SingleDone(rs, t));
    var c := SortBy(f, t => CompletedKey(rs, t));
    assert forall t :: t in c <==> t in multiset(c);
    assert forall t :: t in f <==> t in multiset(f);
    c
  }

  /** Pairs each completed task with its first record on its date. The source
      builds these pairs before sorting; the record is a function of the task,
      so sorting the tasks by the record's time and pairing afterwards yields
      the same list. */
  function WithRecords(ts: seq<Task>, rs: seq<Record>): (r: seq<CompletedEntry>)
    requires forall t :: t in ts ==> SingleDone(rs, t)
    ensures |r| == |ts|
    ensures forall i :: 0 <= i < |r| ==>
              r[i].task == ts[i] && r[i].record in rs && r[i].record.taskId == ts[i].id &&
              Some(r[i].record.date) == ts[i].date
  {
    if |ts| == 0 then []
    else
      var t := ts[|ts| - 1];
      assert t in ts && SingleDone(rs, t);
      assert forall x :: x in ts[..|ts| - 1] ==> x in ts;
      WithRecords(ts[..|ts| - 1], rs) + [CompletedEntry(t, FirstRecordOn(rs, t.id, t.date.value).value)]
  }

  /** getCompletedSingleTasks. */
  function CompletedSingleEntries(single: seq<Task>, rs: seq<Record>): seq<CompletedEntry>
  {
    WithRecords(CompletedSingleTasks(single, rs), rs)
  }

  /** The unfinished and the completed lists together are exactly the single
      tasks: each task lands in one of them, as often as it occurs. */
  lemma UnfinishedCompletedPartition(single: seq<Task>, rs: seq<Record>)
    ensures multiset(UnfinishedTasks(single, rs)) + multiset(CompletedSingleTasks(single, rs)) == multiset(single)
  {
    FilterSplit(single, (t: Task) => !SingleDone(rs, t), t => SingleDone(rs, t));
  }

  // ------------------------------------------- overdue / today / upcoming

  predicate Overdue(t: Task, today: Day) { t.date.Some? && t.date.value < today }
  predicate DueToday(t: Task, today: Day) { t.date == Some(today) }
  predicate Upcoming(t: Task, today: Day) { t.date.None? || t.date.value > today }

  /** renderUnfinishedTasksList: a dated task before today is overdue, one on
      today is due today, and everything else, including an undated task, is
      upcoming. Each group keeps the input order, and every task lands in
      exactly one group. */
  function GroupByDay(ts: seq<Task>, today: Day): (r: (seq<Task>, seq<Task>, seq<Task>))
    ensures multiset(r.0) + multiset(r.1) + multiset(r.2) == multiset(ts)
    ensures forall t :: t in r.0 <==> t in ts && Overdue(t, today)
    ensures forall t :: t in r.1 <==> t in ts && DueToday(t, today)
    ensures forall t :: t in r.2 <==> t in ts && Upcoming(t, today)
  {
    var overdue := Filter(ts, t => Overdue(t, today));
    var due := Filter(ts, t => DueToday(t, today));
    var later := Filter(ts, t => Upcoming(t, today));
    assert forall x :: multiset(overdue)[x] + multiset(due)[x] + multiset(later)[x] == multiset(ts)[x] by {
      forall x ensures multiset(overdue)[x] + multiset(due)[x] + multiset(later)[x] == multiset(ts)[x] {
        FilterCount(ts, t => Overdue(t, today), x);
        FilterCount(ts, t => DueToday(t, today), x);
        FilterCount(ts, t => Upcoming(t, today), x);
      }
    }
    assert multiset(overdue) + multiset(due) + multiset(later) == multiset(ts);
    (overdue, due, later)
  }
}
