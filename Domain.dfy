/** Entities of the task manager: tasks, completion records, statistics and the
    values kept in the browser's local storage. Calendar dates are day numbers
    (days since 1970-01-01); the source's 'YYYY-MM-DD' strings compare the same
    way, so string equality and ordering of dates become integer equality and
    ordering. */
module Domain {

  type Id = string

  /** A calendar day, counted from 1970-01-01. */
  type Day = int

  datatype Option<T> = None | Some(value: T)

  /** The task kinds the source tests for; any other string is possible in
      stored data and goes to the single-task list. */
  const DAILY: string := "daily"
  const SINGLE: string := "single"

  /** The dimension a completion record falls back to when its task is gone. */
  const SIMPLE: string := "simple"

  /** A task as the source builds it in addTask: `kind` is the source's `type`
      field, `createdDay` the day of its `createdDate` timestamp, and `date` the
      scheduled day of a single task. */
  datatype Task = Task(
    id: Id,
    name: string,
    kind: string,
    dimension: string,
    targetValue: int,
    unit: string,
    createdDay: Day,
    startDate: Option<Day>,
    endDate: Option<Day>,
    date: Option<Day>)

  /** A completion record: one per completion action, several may exist for
      the same task and day. */
  datatype Record = Record(
    id: Id,
    taskId: Id,
    taskType: string,
    date: Day,
    completedAt: int,
    actualValue: real,
    taskName: string,
    dimension: string,
    note: string)

  /** The cumulative entry kept per daily task. */
  datatype TaskStat = TaskStat(
    taskName: string,
    completedDays: int,
    totalValue: real,
    dimension: string,
    unit: string)

  /** The statistics object. An absent `dailyTaskStats` object behaves like an
      empty one everywhere in the core, so it is an always-present map here. */
  datatype Statistics = Statistics(
    totalCompleted: int,
    streakDays: int,
    weeklyCompletionRate: int,
    totalExerciseHours: int,
    lastUpdateDate: Day,
    dailyCompletions: map<Day, int>,
    taskCategories: map<string, int>,
    dailyTaskStats: map<Id, TaskStat>)

  /** A task's projected instance on one day. */
  datatype Occurrence = Occurrence(task: Task, date: Day, completed: bool)

  /** What the task manager writes under a storage key. */
  datatype Stored =
    | StoredTasks(tasks: seq<Task>)
    | StoredRecords(records: seq<Record>)
    | StoredStats(stats: Statistics)
    | StoredTime(time: Option<int>)

  /** What a guest session hands to the merge on sign-in. */
  datatype Snapshot = Snapshot(
    dailyTasks: seq<Task>,
    singleTasks: seq<Task>,
    completedTasks: seq<Record>,
    statistics: Statistics)

  /** The statistics a fresh namespace starts with. */
  function InitialStatistics(today: Day): Statistics
  {
    Statistics(0, 0, 0, 0, today, map[], map[], map[])
  }

  /** A counter map read the way the source reads it: a missing entry is 0. */
  function Get0<K>(m: map<K, int>, k: K): int
  {
    if k in m then m[k] else 0
  }
}
