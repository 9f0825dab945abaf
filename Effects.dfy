/** What each operation of TaskManager (script.js) does to the whole state of
    a session: its four collections, the projection, the statistics, the
    paging position, the persistence timer's start and the browser's local
    storage. Every operation is a function from the state before to the state
    after, composed in the order the source runs its steps; the class in
    Manager.dfy is proved to compute exactly these functions, and the lemmas
    here state what the operations promise. The clock (today, now), fresh
    ids, the last projected day and the cloud's answer are parameters. */
module Effects {
  import opened Domain
  import opened Seqs
  import opened TaskStore
  import opened Projection
  import opened Stats
  import opened I18n

  // ---------------------------------------------------------- storage keys

  const DAILY_TASKS_KEY: string := "daily_tasks"
  const SINGLE_TASKS_KEY: string := "single_tasks"
  const COMPLETED_TASKS_KEY: string := "completed_tasks"
  const STATISTICS_KEY: string := "task_statistics"
  const PERSIST_START_KEY: string := "persist_start_time"

  /** The namespace of the signed-out session. */
  const GUEST_PREFIX: string := "guest_"

  /** The namespace of a signed-in user. */
  function UserPrefix(uid: string): (p: string)
    ensures |p| == |uid| + 6 && p[0] == 'u' && p[|p| - 1] == '_'
  {
    "user_" + uid + "_"
  }

  /** The five keys the task manager stores under. */
  predicate IsStorageKey(k: string)
  {
    k == DAILY_TASKS_KEY || k == SINGLE_TASKS_KEY || k == COMPLETED_TASKS_KEY ||
    k == STATISTICS_KEY || k == PERSIST_START_KEY
  }

  // ----------------------------------------------------------------- state

  /** Everything the data side of a session holds. */
  datatype State = State(
    userPrefix: string,
    dailyTasks: seq<Task>,
    singleTasks: seq<Task>,
    completedTasks: seq<Record>,
    statistics: Statistics,
    futureTasks: map<Day, seq<Occurrence>>,
    currentDailyStatsPage: int,
    persistStartTime: Option<int>,
    storage: map<string, Stored>)

  /** saveData: the value goes under the session's prefix plus the key. */
  function Save(s: State, key: string, v: Stored): (r: State)
    ensures r.storage == s.storage[s.userPrefix + key := v]
    ensures r.(storage := s.storage) == s
  {
    s.(storage := s.storage[s.userPrefix + key := v])
  }

  /** loadData for a task list, with the caller's `|| []`. */
  function LoadTasks(s: State, key: string): seq<Task>
  {
    var k := s.userPrefix + key;
    if k in s.storage && s.storage[k].StoredTasks? then s.storage[k].tasks else []
  }

  function LoadRecords(s: State, key: string): seq<Record>
  {
    var k := s.userPrefix + key;
    if k in s.storage && s.storage[k].StoredRecords? then s.storage[k].records else []
  }

  /** loadData for the statistics, with the caller's fall-back to fresh ones. */
  function LoadStats(s: State, today: Day): Statistics
  {
    var k := s.userPrefix + STATISTICS_KEY;
    if k in s.storage && s.storage[k].StoredStats? then s.storage[k].stats else InitialStatistics(today)
  }

  function LoadTime(s: State): Option<int>
  {
    var k := s.userPrefix + PERSIST_START_KEY;
    if k in s.storage && s.storage[k].StoredTime? then s.storage[k].time else None
  }

  // ------------------------------------------------------ the small steps

  /** The days generateFutureTasks covers, each with its occurrences. */
  function Window(daily: seq<Task>, single: seq<Task>, rs: seq<Record>, first: Day, last: Day)
    : (m: map<Day, seq<Occurrence>>)
    ensures forall d :: d in m <==> first <= d <= last
  {
    map d | first <= d <= last :: DayOccurrences(daily, single, rs, d)
  }

  /** generateFutureTasks: the projection from a week before today to the
      last projected day. */
  function Generated(s: State, today: Day, lastDay: Day): State
  {
    s.(futureTasks := Window(s.dailyTasks, s.singleTasks, s.completedTasks, today - 7, lastDay))
  }

  /** updateAllDisplays, for its effect on the data: updateHomePanel resets
      totalCompleted to the number of records and saves the statistics. */
  function Displayed(s: State): State
  {
    var st := s.statistics.(totalCompleted := |s.completedTasks|);
    Save(s.(statistics := st), STATISTICS_KEY, StoredStats(st))
  }

  /** recalculateDailyTaskStats, which saves the statistics afterwards. */
  function Recalculated(s: State): State
  {
    var st := s.statistics.(dailyTaskStats := Rebuild(s.statistics.dailyTaskStats, s.completedTasks));
    Save(s.(statistics := st), STATISTICS_KEY, StoredStats(st))
  }

  /** initializeDailyTaskStats: seed an entry for every daily task, then
      rebuild. */
  function Initialized(s: State): State
  {
    Recalculated(s.(statistics := s.statistics.(dailyTaskStats := Seed(s.statistics.dailyTaskStats, s.dailyTasks))))
  }

  /** cleanupTaskClassification: reclassify, and save both lists only when a
      task had to move. */
  function Cleaned(s: State): State
  {
    var r := Reclassify(s.dailyTasks, s.singleTasks);
    if r == (s.dailyTasks, s.singleTasks) then s
    else
      var s1 := Save(s.(dailyTasks := r.0, singleTasks := r.1), DAILY_TASKS_KEY, StoredTasks(r.0));
      Save(s1, SINGLE_TASKS_KEY, StoredTasks(r.1))
  }

  // ------------------------------------------------------------ task store

  /** addTask: the new task is pushed onto the daily list when its kind is
      'daily' and onto the single list otherwise; that list is saved, the
      projection regenerated and the displays updated. */
  function Added(s: State, data: TaskInput, id: Id, today: Day, texts: map<string, string>, lastDay: Day): State
  {
    var t := NewTask(data, id, today, GetUnit(texts, data.dimension));
    var s1 :=
      if t.kind == DAILY then Save(s.(dailyTasks := s.dailyTasks + [t]), DAILY_TASKS_KEY, StoredTasks(s.dailyTasks + [t]))
      else Save(s.(singleTasks := s.singleTasks + [t]), SINGLE_TASKS_KEY, StoredTasks(s.singleTasks + [t]));
    Displayed(Generated(s1, today, lastDay))
  }

  /** The permanent branch of deleteTask for a daily task. */
  function DailyDeleted(s: State, k: Id): State
  {
    var d := WithoutTask(s.dailyTasks, k);
    var s1 := Save(s.(dailyTasks := d), DAILY_TASKS_KEY, StoredTasks(d));
    var rs := WithoutRecordsOf(s1.completedTasks, k);
    var s2 := Save(s1.(completedTasks := rs), COMPLETED_TASKS_KEY, StoredRecords(rs));
    if k in s2.statistics.dailyTaskStats then
      var st := s2.statistics.(dailyTaskStats := s2.statistics.dailyTaskStats - {k});
      Save(s2.(statistics := st), STATISTICS_KEY, StoredStats(st))
    else s2
  }

  /** The branch of deleteTask for any other kind. */
  function SingleDeleted(s: State, k: Id): State
  {
    var single := WithoutTask(s.singleTasks, k);
    var s1 := Save(s.(singleTasks := single), SINGLE_TASKS_KEY, StoredTasks(single));
    var rs := WithoutRecordsOf(s1.completedTasks, k);
    Save(s1.(completedTasks := rs), COMPLETED_TASKS_KEY, StoredRecords(rs))
  }

  /** deleteTask: a daily task goes only when the deletion is permanent;
      the projection and the displays are refreshed in every case. */
  function Deleted(s: State, k: Id, kind: string, permanent: bool, today: Day, lastDay: Day): State
  {
    var s1 := if kind == DAILY then (if permanent then DailyDeleted(s, k) else s) else SingleDeleted(s, k);
    Displayed(Generated(s1, today, lastDay))
  }

  /** The statistics after updateStatistics; the new record is already in
      the list. */
  function StatsAfterCompletion(s: State, k: Id, kind: string, v: real, today: Day): Statistics
  {
    var st := s.statistics;
    var dc := Bump(st.dailyCompletions, today);
    var cats := Bump(st.taskCategories, kind);
    var dts := UpdateTaskStat(st.dailyTaskStats, s.dailyTasks, s.completedTasks, k, v, today);
    st.(dailyCompletions := dc, taskCategories := cats, dailyTaskStats := dts,
        streakDays := Streak(dc, today), weeklyCompletionRate := WeeklyRate(s.futureTasks, today),
        lastUpdateDate := today)
  }

  /** updateStatistics: the statistics as above, then saved. */
  function StatsUpdated(s: State, k: Id, kind: string, v: real, today: Day): State
  {
    var st := StatsAfterCompletion(s, k, kind, v, today);
    Save(s.(statistics := st), STATISTICS_KEY, StoredStats(st))
  }

  /** The record completeTask appends. */
  function CompletionRecord(s: State, k: Id, kind: string, date: Day, custom: Option<real>, note: string,
                            rid: Id, now: int): Record
  {
    NewRecord(rid, k, kind, date, now, custom, FindTask(s.dailyTasks, s.singleTasks, k), note)
  }

  /** completeTask: start the timer if it was not running, append the record
      and save, then update the statistics. */
  function Completed(s: State, k: Id, kind: string, date: Day, custom: Option<real>, note: string,
                     rid: Id, now: int, today: Day): State
  {
    var rec := CompletionRecord(s, k, kind, date, custom, note, rid, now);
    var s1 := if s.persistStartTime.None? then Save(s.(persistStartTime := Some(now)), PERSIST_START_KEY, StoredTime(Some(now))) else s;
    var s2 := Save(s1.(completedTasks := s1.completedTasks + [rec]), COMPLETED_TASKS_KEY, StoredRecords(s1.completedTasks + [rec]));
    StatsUpdated(s2, k, kind, rec.actualValue, today)
  }

  /** The rest of the record removals: save the records, rebuild the
      per-task statistics, regenerate, update the displays. */
  function AfterRecordsRemoved(s: State, rs: seq<Record>, today: Day, lastDay: Day): State
  {
    var s1 := Save(s.(completedTasks := rs), COMPLETED_TASKS_KEY, StoredRecords(rs));
    Displayed(Generated(Recalculated(s1), today, lastDay))
  }

  /** toggleTaskCompletion: only a completed (task, day) pair is acted on,
      and then every record of it goes. */
  function Toggled(s: State, k: Id, date: Day, today: Day, lastDay: Day): State
  {
    if !IsCompletedOn(s.completedTasks, k, date) then s
    else AfterRecordsRemoved(s, WithoutRecordsOn(s.completedTasks, k, date), today, lastDay)
  }

  /** deleteCompletionRecord: nothing for an unknown id, otherwise the first
      record with the id goes. */
  function RecordDeleted(s: State, rid: Id, today: Day, lastDay: Day): State
  {
    if IndexOfRecord(s.completedTasks, rid) == -1 then s
    else AfterRecordsRemoved(s, WithoutFirstRecord(s.completedTasks, rid), today, lastDay)
  }

  /** slideDailyStats. */
  function Slid(s: State, dir: int): State
  {
    s.(currentDailyStatsPage := SlidePage(s.currentDailyStatsPage, dir, |s.statistics.dailyTaskStats.Keys|))
  }

  // ----------------------------------------------------------- guest merge

  /** mergeStatistics: nothing without guest statistics; otherwise the total
      and both counter maps are summed. */
  function StatsMerged(s: State, guest: Option<Statistics>): State
  {
    if guest.None? then s
    else
      var st, g := s.statistics, guest.value;
      s.(statistics := st.(totalCompleted := st.totalCompleted + g.totalCompleted,
                           dailyCompletions := MergeCounts(st.dailyCompletions, g.dailyCompletions),
                           taskCategories := MergeCounts(st.taskCategories, g.taskCategories)))
  }

  /** saveAllData: save the four values, regenerate, re-seed and rebuild. */
  function SavedAll(s: State, today: Day, lastDay: Day): State
  {
    var s1 := Save(s, DAILY_TASKS_KEY, StoredTasks(s.dailyTasks));
    var s2 := Save(s1, SINGLE_TASKS_KEY, StoredTasks(s.singleTasks));
    var s3 := Save(s2, COMPLETED_TASKS_KEY, StoredRecords(s.completedTasks));
    var s4 := Save(s3, STATISTICS_KEY, StoredStats(s.statistics));
    Initialized(Generated(s4, today, lastDay))
  }

  predicate EmptySnapshot(g: Snapshot)
  {
    |g.dailyTasks| == 0 && |g.singleTasks| == 0 && |g.completedTasks| == 0
  }

  /** The three list merges of mergeGuestData: each list becomes the
      id-keyed union of the current and the guest list. */
  function ListsMerged(s: State, g: Snapshot): State
  {
    s.(dailyTasks := MergeById(s.dailyTasks, g.dailyTasks, TaskIdOf),
       singleTasks := MergeById(s.singleTasks, g.singleTasks, TaskIdOf),
       completedTasks := MergeById(s.completedTasks, g.completedTasks, RecordIdOf))
  }

  /** mergeGuestData: nothing when the guest had no tasks and no records;
      otherwise the id-keyed union of each list, the statistics merge and a
      full save. */
  function GuestMerged(s: State, g: Snapshot, today: Day, lastDay: Day): State
  {
    if EmptySnapshot(g) then s
    else SavedAll(StatsMerged(ListsMerged(s, g), Some(g.statistics)), today, lastDay)
  }

  // ----------------------------------------------------- loading, sign-in

  /** The user document in the cloud; a missing field is None. */
  datatype CloudData = CloudData(
    dailyTasks: Option<seq<Task>>,
    singleTasks: Option<seq<Task>>,
    completedTasks: Option<seq<Record>>,
    statistics: Option<Statistics>,
    persistStartTime: Option<int>)

  /** How loadFromFirestore's read ended. */
  datatype CloudLoad = Doc(data: CloudData) | NoDoc | Failed

  function OrEmpty<T>(o: Option<seq<T>>): seq<T>
  {
    if o.Some? then o.value else []
  }

  /** The four values read from local storage under the current prefix. */
  function LocallyLoaded(s: State, today: Day): State
  {
    s.(dailyTasks := LoadTasks(s, DAILY_TASKS_KEY), singleTasks := LoadTasks(s, SINGLE_TASKS_KEY),
       completedTasks := LoadRecords(s, COMPLETED_TASKS_KEY), statistics := LoadStats(s, today))
  }

  /** loadFromFirestore: a document replaces the four values (and the timer's
      start when it has one, which is also saved locally); without a document
      the data stays as it is (the document is created from it); on failure
      the local copy is read. */
  function CloudLoaded(s: State, cloud: CloudLoad, today: Day): State
  {
    match cloud
    case Doc(c) =>
      var s1 := s.(dailyTasks := OrEmpty(c.dailyTasks), singleTasks := OrEmpty(c.singleTasks),
                   completedTasks := OrEmpty(c.completedTasks),
                   statistics := if c.statistics.Some? then c.statistics.value else InitialStatistics(today));
      if c.persistStartTime.Some? then
        Save(s1.(persistStartTime := c.persistStartTime), PERSIST_START_KEY, StoredTime(c.persistStartTime))
      else s1
    case NoDoc => s
    case Failed => LocallyLoaded(s, today)
  }

  /** loadAllData: read from the cloud when signed in (`cloud` is Some) and
      from local storage otherwise, then clean up, regenerate, re-seed and
      rebuild, and read the timer's start from local storage. */
  function LoadedAll(s: State, cloud: Option<CloudLoad>, today: Day, lastDay: Day): State
  {
    var s1 := if cloud.Some? then CloudLoaded(s, cloud.value, today) else LocallyLoaded(s, today);
    var s2 := Initialized(Generated(Cleaned(s1), today, lastDay));
    s2.(persistStartTime := LoadTime(s2))
  }

  /** What onUserSignedIn copies before switching namespaces. */
  function SnapshotOf(s: State): Snapshot
  {
    Snapshot(s.dailyTasks, s.singleTasks, s.completedTasks, s.statistics)
  }

  /** AuthManager.onUserSignedIn: snapshot the guest data, switch to the
      user's namespace, load, merge the snapshot in, update the displays. */
  function SignedIn(s: State, uid: string, cloud: CloudLoad, today: Day, lastDay: Day): State
  {
    var g := SnapshotOf(s);
    var s1 := LoadedAll(s.(userPrefix := UserPrefix(uid)), Some(cloud), today, lastDay);
    Displayed(GuestMerged(s1, g, today, lastDay))
  }

  /** AuthManager.onUserSignedOut: back to the guest namespace, local data. */
  function SignedOut(s: State, today: Day, lastDay: Day): State
  {
    Displayed(LoadedAll(s.(userPrefix := GUEST_PREFIX), None, today, lastDay))
  }

  /** The constructor and init: guest namespace, local data, page 0, the
      timer's start from storage, then seed and rebuild, project, display. */
  function Started(storage: map<string, Stored>, today: Day, lastDay: Day): State
  {
    var s0 := State(GUEST_PREFIX, [], [], [], InitialStatistics(today), map[], 0, None, storage);
    var s1 := LocallyLoaded(s0, today).(persistStartTime := LoadTime(s0));
    Displayed(Generated(Initialized(s1), today, lastDay))
  }
}
