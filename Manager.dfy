/** The TaskManager class of script.js with its fields updated in place, the
    browser's local storage it saves into, and AuthManager's sign-in and
    sign-out handlers. Each method is proved to leave the object in the state
    the matching function of module Effects computes from the state before. */
module Manager {
  import opened Domain
  import opened Seqs
  import opened TaskStore
  import opened Projection
  import opened Stats
  import opened I18n
  import opened Effects

  /** localStorage: string keys to stored values. */
  class Storage {
    var items: map<string, Stored>

    constructor(items: map<string, Stored>)
      ensures this.items == items
    {
      this.items := items;
    }
  }

  /** The guest merge's forEach/some/push loop over one list. */
  method MergeInto<T(==,!new)>(target: seq<T>, guest: seq<T>, id: T -> Id) returns (r: seq<T>)
    ensures r == MergeById(target, guest, id)
  {
    r := target;
    var i := 0;
    while i < |guest|
      invariant 0 <= i <= |guest|
      invariant r == MergeById(target, guest[..i], id)
    {
      assert guest[..i + 1][..i] == guest[..i];
      if !HasId(r, id, id(guest[i])) {
        r := r + [guest[i]];
      }
      i := i + 1;
    }
    assert guest[..i] == guest;
  }

  /** One more day at the end of the projection window. */
  lemma WindowGrows(daily: seq<Task>, single: seq<Task>, rs: seq<Record>, first: Day, d: Day)
    requires first <= d
    ensures Window(daily, single, rs, first, d) ==
              Window(daily, single, rs, first, d - 1)[d := DayOccurrences(daily, single, rs, d)]
  {
  }

  /** mergeStatistics' loop over the guest keys of one counter map. */
  method AddCounts<K(==,!new)>(a: map<K, int>, b: map<K, int>) returns (r: map<K, int>)
    ensures r == MergeCounts(a, b)
  {
    r := a;
    var todo := b.Keys;
    while todo != {}
      invariant todo <= b.Keys
      invariant r.Keys == a.Keys + (b.Keys - todo)
      invariant forall k :: k in b && k !in todo ==> r[k] == Get0(a, k) + b[k]
      invariant forall k :: k in a && (k !in b || k in todo) ==> r[k] == a[k]
      decreases todo
    {
      var k :| k in todo;
      if k !in r || r[k] == 0 {
        r := r[k := b[k]];
      } else {
        r := r[k := r[k] + b[k]];
      }
      todo := todo - {k};
    }
    var m := MergeCounts(a, b);
    assert r.Keys == m.Keys;
    forall k | k in r ensures r[k] == m[k] {
    }
  }

  /** One more task of the forEach over the daily tasks. */
  lemma DailyStep(daily: seq<Task>, rs: seq<Record>, d: Day, j: nat)
    requires j < |daily|
    ensures DailyOccurrences(daily[..j + 1], rs, d) ==
              DailyOccurrences(daily[..j], rs, d) + (if ActiveOn(daily[j], d) then [OccurrenceOf(daily[j], rs, d)] else [])
  {
    assert daily[..j + 1][..j] == daily[..j];
  }

  /** One more task of the forEach over the single tasks. */
  lemma SingleStep(single: seq<Task>, rs: seq<Record>, d: Day, j: nat)
    requires j < |single|
    ensures SingleOccurrences(single[..j + 1], rs, d) ==
              SingleOccurrences(single[..j], rs, d) + (if single[j].date == Some(d) then [OccurrenceOf(single[j], rs, d)] else [])
  {
    assert single[..j + 1][..j] == single[..j];
  }

  /** One day of generateFutureTasks: the forEach over the daily tasks,
      then the one over the single tasks. */
  method ProjectDay(daily: seq<Task>, single: seq<Task>, rs: seq<Record>, d: Day) returns (day: seq<Occurrence>)
    ensures day == DayOccurrences(daily, single, rs, d)
  {
    day := [];
    var j := 0;
    while j < |daily|
      invariant 0 <= j <= |daily|
      invariant day == DailyOccurrences(daily[..j], rs, d)
    {
      DailyStep(daily, rs, d, j);
      if ActiveOn(daily[j], d) {
        day := day + [OccurrenceOf(daily[j], rs, d)];
      }
      j := j + 1;
    }
    assert daily[..j] == daily;
    var singles: seq<Occurrence> := [];
    j := 0;
    while j < |single|
      invariant 0 <= j <= |single|
      invariant singles == SingleOccurrences(single[..j], rs, d)
    {
      SingleStep(single, rs, d, j);
      if single[j].date == Some(d) {
        singles := singles + [OccurrenceOf(single[j], rs, d)];
      }
      j := j + 1;
    }
    assert single[..j] == single;
    day := day + singles;
  }

  /** generateFutureTasks' date loop from `first` to `last`. */
  method Project(daily: seq<Task>, single: seq<Task>, rs: seq<Record>, first: Day, last: Day)
    returns (ft: map<Day, seq<Occurrence>>)
    ensures ft == Window(daily, single, rs, first, last)
  {
    ft := map[];
    var d := first;
    while d <= last
      invariant first <= d && (d <= last + 1 || d == first)
      invariant ft == Window(daily, single, rs, first, d - 1)
      decreases last - d
    {
      var day := ProjectDay(daily, single, rs, d);
      WindowGrows(daily, single, rs, first, d);
      ft := ft[d := day];
      d := d + 1;
    }
    if d == first {
      assert ft.Keys == {};
    }
  }

  /** recalculateDailyTaskStats' first loop over the records: the set of
      distinct days on which each task was completed. */
  method CollectDays(rs: seq<Record>) returns (days: map<Id, set<Day>>)
    ensures forall k :: k in days ==> days[k] == DaysOf(rs, k)
    ensures forall k :: k !in days ==> DaysOf(rs, k) == {}
  {
    days := map[];
    var i := 0;
    while i < |rs|
      invariant 0 <= i <= |rs|
      invariant forall k :: k in days ==> days[k] == DaysOf(rs[..i], k)
      invariant forall k :: k !in days ==> DaysOf(rs[..i], k) == {}
    {
      var x := rs[i];
      assert rs[..i + 1] == rs[..i] + [x];
      forall k
        ensures DaysOf(rs[..i + 1], k) == DaysOf(rs[..i], k) + (if x.taskId == k then {x.date} else {})
      {
        DaysOfAppend(rs[..i], x, k);
      }
      days := days[x.taskId := (if x.taskId in days then days[x.taskId] else {}) + {x.date}];
      i := i + 1;
    }
    assert rs[..i] == rs;
  }

  /** The reset of every entry followed by the second loop over the records,
      which adds each record's value to its task's entry when there is one. */
  method SumValues(before: map<Id, TaskStat>, rs: seq<Record>) returns (dts: map<Id, TaskStat>)
    ensures dts.Keys == before.Keys
    ensures forall k :: k in dts ==> dts[k] == before[k].(completedDays := 0, totalValue := ValueSum(rs, k))
  {
    dts := map k | k in before :: before[k].(completedDays := 0, totalValue := 0.0);
    var i := 0;
    while i < |rs|
      invariant 0 <= i <= |rs|
      invariant dts.Keys == before.Keys
      invariant forall k :: k in dts ==> dts[k] == before[k].(completedDays := 0, totalValue := ValueSum(rs[..i], k))
    {
      var x := rs[i];
      assert rs[..i + 1] == rs[..i] + [x];
      forall k
        ensures ValueSum(rs[..i + 1], k) == ValueSum(rs[..i], k) + (if x.taskId == k then ValueOr1(x.actualValue) else 0.0)
      {
        ValueSumAppend(rs[..i], x, k);
      }
      if x.taskId in dts {
        var e := dts[x.taskId];
        dts := dts[x.taskId := e.(totalValue := e.totalValue + ValueOr1(x.actualValue))];
      }
      i := i + 1;
    }
    assert rs[..i] == rs;
  }

  /** The loop over the collected days: each entry that exists gets its
      number of distinct days. */
  method SetDayCounts(sums: map<Id, TaskStat>, days: map<Id, set<Day>>) returns (dts: map<Id, TaskStat>)
    ensures dts.Keys == sums.Keys
    ensures forall k :: k in dts ==>
              dts[k] == sums[k].(completedDays := if k in days then |days[k]| else sums[k].completedDays)
  {
    dts := sums;
    var todo := days.Keys;
    while todo != {}
      invariant todo <= days.Keys
      invariant dts.Keys == sums.Keys
      invariant forall k :: k in dts ==>
                  dts[k] == sums[k].(completedDays := if k in days && k !in todo then |days[k]| else sums[k].completedDays)
      decreases todo
    {
      var k :| k in todo;
      if k in dts {
        dts := dts[k := dts[k].(completedDays := |days[k]|)];
      }
      todo := todo - {k};
    }
  }

  /** The loops of recalculateDailyTaskStats together. */
  method RebuildStats(before: map<Id, TaskStat>, rs: seq<Record>) returns (dts: map<Id, TaskStat>)
    ensures dts == Rebuild(before, rs)
  {
    var days := CollectDays(rs);
    var sums := SumValues(before, rs);
    dts := SetDayCounts(sums, days);
    forall k | k in dts ensures dts[k] == RebuiltEntry(before[k], rs, k) {
      if k !in days {
        assert |DaysOf(rs, k)| == 0;
      }
    }
  }

  /** One more task of the forEach. */
  lemma SeedStep(stats: map<Id, TaskStat>, daily: seq<Task>, i: nat)
    requires i < |daily|
    ensures var s := Seed(stats, daily[..i]);
            Seed(stats, daily[..i + 1]) == if daily[i].id in s then s else s[daily[i].id := FreshEntry(daily[i])]
  {
    assert daily[..i + 1][..i] == daily[..i];
  }

  /** initializeDailyTaskStats' forEach over the daily tasks. */
  method SeedStats(stats: map<Id, TaskStat>, daily: seq<Task>) returns (dts: map<Id, TaskStat>)
    ensures dts == Seed(stats, daily)
  {
    dts := stats;
    var i := 0;
    while i < |daily|
      invariant 0 <= i <= |daily|
      invariant dts == Seed(stats, daily[..i])
    {
      var t := daily[i];
      SeedStep(stats, daily, i);
      if t.id !in dts {
        dts := dts[t.id := FreshEntry(t)];
      }
      i := i + 1;
    }
    assert daily[..i] == daily;
  }

  /** cleanupTaskClassification's two passes over values: each pass filters
      the misfiled tasks out, pushes them one by one onto the other list and
      filters the list it came from; `moved` is the source's needsSave. */
  method ReclassifyLists(daily: seq<Task>, single: seq<Task>) returns (d: seq<Task>, s: seq<Task>, moved: bool)
    ensures (d, s) == Reclassify(daily, single)
    ensures moved <==> !Separated(daily, single)
    ensures moved <==> (d, s) != (daily, single)
  {
    d, s, moved := daily, single, false;
    var wrongDaily := Filter(d, IsSingle);
    if |wrongDaily| > 0 {
      s := PushAll(s, wrongDaily);
      d := Filter(d, IsDaily);
      moved := true;
    }
    var wrongSingle := Filter(s, IsDaily);
    if |wrongSingle| > 0 {
      d := PushAll(d, wrongSingle);
      s := Filter(s, IsSingle);
      moved := true;
    }
    MisfiledFound(daily, single, wrongDaily, wrongSingle);
    ReclassifyFixpoint(daily, single);
  }

  /** The two filters of cleanupTaskClassification find something exactly
      when the lists are not separated. */
  lemma MisfiledFound(daily: seq<Task>, single: seq<Task>, wrongDaily: seq<Task>, wrongSingle: seq<Task>)
    requires wrongDaily == Filter(daily, IsSingle)
    requires wrongSingle == Filter(if |wrongDaily| > 0 then single + wrongDaily else single, IsDaily)
    ensures |wrongDaily| > 0 || |wrongSingle| > 0 <==> !Separated(daily, single)
  {
    var s1 := if |wrongDaily| > 0 then single + wrongDaily else single;
    assert |wrongDaily| > 0 ==> wrongDaily[0] in wrongDaily;
    assert |wrongSingle| > 0 ==> wrongSingle[0] in wrongSingle;
    assert forall t :: t in single ==> t in s1;
  }

  /** A forEach that pushes every item of `b` onto `a`, in order. */
  method PushAll<T>(a: seq<T>, b: seq<T>) returns (r: seq<T>)
    ensures r == a + b
  {
    r := a;
    var i := 0;
    while i < |b|
      invariant 0 <= i <= |b|
      invariant r == a + b[..i]
    {
      assert b[..i + 1] == b[..i] + [b[i]];
      r := r + [b[i]];
      i := i + 1;
    }
    assert b[..i] == b;
  }

  class TaskManager {
    var userPrefix: string
    var dailyTasks: seq<Task>
    var singleTasks: seq<Task>
    var completedTasks: seq<Record>
    var statistics: Statistics
    var futureTasks: map<Day, seq<Occurrence>>
    var currentDailyStatsPage: int
    var persistStartTime: Option<int>
    const store: Storage

    /** The whole state, as module Effects describes it. */
    function Abs(): State
      reads this, store
    {
      State(userPrefix, dailyTasks, singleTasks, completedTasks, statistics, futureTasks,
            currentDailyStatsPage, persistStartTime, store.items)
    }

    constructor(store: Storage, today: Day, lastDay: Day)
      modifies store
      ensures this.store == store
      ensures Abs() == Started(old(store.items), today, lastDay)
    {
      this.store := store;
      userPrefix := GUEST_PREFIX;
      dailyTasks, singleTasks, completedTasks := [], [], [];
      statistics := InitialStatistics(today);
      futureTasks := map[];
      currentDailyStatsPage := 0;
      persistStartTime := None;
      new;
      var s0 := Abs();
      LoadLocal(today);
      persistStartTime := LoadTime(s0);
      InitializeDailyTaskStats();
      GenerateFutureTasks(today, lastDay);
      UpdateAllDisplays();
    }

    /** saveData, for the local copy. */
    method SaveData(key: string, v: Stored)
      modifies store
      ensures Abs() == Save(old(Abs()), key, v)
    {
      store.items := store.items[userPrefix + key := v];
    }

    /** The four loadData calls of the constructor and of loadAllData. */
    method LoadLocal(today: Day)
      modifies this
      ensures Abs() == LocallyLoaded(old(Abs()), today)
    {
      var s := Abs();
      dailyTasks := LoadTasks(s, DAILY_TASKS_KEY);
      singleTasks := LoadTasks(s, SINGLE_TASKS_KEY);
      completedTasks := LoadRecords(s, COMPLETED_TASKS_KEY);
      statistics := LoadStats(s, today);
    }

    /** generateFutureTasks: the projection from a week before today to
        `lastDay`. */
    method GenerateFutureTasks(today: Day, lastDay: Day)
      modifies this
      ensures Abs() == Generated(old(Abs()), today, lastDay)
    {
      futureTasks := Project(dailyTasks, singleTasks, completedTasks, today - 7, lastDay);
    }

    /** updateAllDisplays, for its effect on the data: updateHomePanel. */
    method UpdateAllDisplays()
      modifies this, store
      ensures Abs() == Displayed(old(Abs()))
    {
      statistics := statistics.(totalCompleted := |completedTasks|);
      SaveData(STATISTICS_KEY, StoredStats(statistics));
    }

    /** recalculateDailyTaskStats. */
    method RecalculateDailyTaskStats()
      modifies this, store
      ensures Abs() == Recalculated(old(Abs()))
    {
      var dts := RebuildStats(statistics.dailyTaskStats, completedTasks);
      statistics := statistics.(dailyTaskStats := dts);
      SaveData(STATISTICS_KEY, StoredStats(statistics));
    }

    /** initializeDailyTaskStats. */
    method InitializeDailyTaskStats()
      modifies this, store
      ensures Abs() == Initialized(old(Abs()))
    {
      var dts := SeedStats(statistics.dailyTaskStats, dailyTasks);
      statistics := statistics.(dailyTaskStats := dts);
      RecalculateDailyTaskStats();
    }

    /** cleanupTaskClassification. */
    method CleanupTaskClassification()
      modifies this, store
      ensures Abs() == Cleaned(old(Abs()))
    {
      ghost var s0 := Abs();
      var d, s, needsSave := ReclassifyLists(dailyTasks, singleTasks);
      if needsSave {
        dailyTasks, singleTasks := d, s;
        assert Abs() == s0.(dailyTasks := d, singleTasks := s);
        SaveData(DAILY_TASKS_KEY, StoredTasks(dailyTasks));
        SaveData(SINGLE_TASKS_KEY, StoredTasks(singleTasks));
      }
    }

    /** addTask; `id` is the fresh id and `texts` the current language's
        table, both supplied by the caller. */
    method AddTask(data: TaskInput, id: Id, today: Day, texts: map<string, string>, lastDay: Day)
      modifies this, store
      ensures Abs() == Added(old(Abs()), data, id, today, texts, lastDay)
    {
      var task := NewTask(data, id, today, GetUnit(texts, data.dimension));
      if task.kind == DAILY {
        dailyTasks := dailyTasks + [task];
        SaveData(DAILY_TASKS_KEY, StoredTasks(dailyTasks));
      } else {
        singleTasks := singleTasks + [task];
        SaveData(SINGLE_TASKS_KEY, StoredTasks(singleTasks));
      }
      GenerateFutureTasks(today, lastDay);
      UpdateAllDisplays();
    }

    /** deleteTask. */
    method DeleteTask(k: Id, kind: string, permanent: bool, today: Day, lastDay: Day)
      modifies this, store
      ensures Abs() == Deleted(old(Abs()), k, kind, permanent, today, lastDay)
    {
      if kind == DAILY {
        if permanent {
          dailyTasks := WithoutTask(dailyTasks, k);
          SaveData(DAILY_TASKS_KEY, StoredTasks(dailyTasks));
          completedTasks := WithoutRecordsOf(completedTasks, k);
          SaveData(COMPLETED_TASKS_KEY, StoredRecords(completedTasks));
          if k in statistics.dailyTaskStats {
            statistics := statistics.(dailyTaskStats := statistics.dailyTaskStats - {k});
            SaveData(STATISTICS_KEY, StoredStats(statistics));
          }
        }
      } else {
        singleTasks := WithoutTask(singleTasks, k);
        SaveData(SINGLE_TASKS_KEY, StoredTasks(singleTasks));
        completedTasks := WithoutRecordsOf(completedTasks, k);
        SaveData(COMPLETED_TASKS_KEY, StoredRecords(completedTasks));
      }
      GenerateFutureTasks(today, lastDay);
      UpdateAllDisplays();
    }

    /** updateDailyTaskStats, after the new record has been appended. */
    method UpdateDailyTaskStats(k: Id, v: real, today: Day)
      modifies this
      ensures Abs() == old(Abs()).(statistics := old(statistics).(dailyTaskStats :=
                UpdateTaskStat(old(statistics.dailyTaskStats), dailyTasks, completedTasks, k, v, today)))
    {
      var task := FindById(dailyTasks, TaskIdOf, k);
      if task.None? {
        return;
      }
      var dts := statistics.dailyTaskStats;
      var e0 := if k in dts then dts[k] else FreshEntry(task.value);
      var todayCompletions := Filter(completedTasks, OnDay(k, today));
      var newDay := |todayCompletions| == 1;
      assert newDay == (CountOn(completedTasks, k, today) == 1);
      var e := e0;
      if newDay {
        e := e.(completedDays := e.completedDays + 1);
      }
      e := e.(totalValue := e.totalValue + v);
      assert e == Credit(e0, v, newDay);
      statistics := statistics.(dailyTaskStats := dts[k := e]);
    }

    /** calculateStreakDays. */
    method CalculateStreakDays(today: Day)
      modifies this
      ensures Abs() == old(Abs()).(statistics := old(statistics).(streakDays := Streak(statistics.dailyCompletions, today)))
    {
      var n := CountStreak(statistics.dailyCompletions, today);
      StreakUnique(statistics.dailyCompletions, today, n);
      statistics := statistics.(streakDays := n);
    }

    /** calculateWeeklyCompletionRate. */
    method CalculateWeeklyCompletionRate(today: Day)
      modifies this
      ensures Abs() == old(Abs()).(statistics := old(statistics).(weeklyCompletionRate := WeeklyRate(futureTasks, today)))
    {
      var total, completed := WeekCounts(futureTasks, WeekStart(today));
      var rate := if total > 0 then RoundedPercent(completed, total) else 0;
      statistics := statistics.(weeklyCompletionRate := rate);
    }

    /** updateStatistics. */
    method UpdateStatistics(k: Id, kind: string, v: real, today: Day)
      modifies this, store
      ensures Abs() == StatsUpdated(old(Abs()), k, kind, v, today)
    {
      statistics := statistics.(dailyCompletions := Bump(statistics.dailyCompletions, today));
      statistics := statistics.(taskCategories := Bump(statistics.taskCategories, kind));
      UpdateDailyTaskStats(k, v, today);
      CalculateStreakDays(today);
      CalculateWeeklyCompletionRate(today);
      statistics := statistics.(lastUpdateDate := today);
      SaveData(STATISTICS_KEY, StoredStats(statistics));
    }

    /** completeTask; `rid` is the fresh record id, `now` the clock. */
    method CompleteTask(k: Id, kind: string, date: Day, custom: Option<real>, note: string,
                        rid: Id, now: int, today: Day)
      modifies this, store
      ensures Abs() == Completed(old(Abs()), k, kind, date, custom, note, rid, now, today)
    {
      ghost var s0 := Abs();
      var task := FindTask(dailyTasks, singleTasks, k);
      if persistStartTime.None? {
        persistStartTime := Some(now);
        SaveData(PERSIST_START_KEY, StoredTime(persistStartTime));
      }
      var rec := NewRecord(rid, k, kind, date, now, custom, task, note);
      assert rec == CompletionRecord(s0, k, kind, date, custom, note, rid, now);
      completedTasks := completedTasks + [rec];
      SaveData(COMPLETED_TASKS_KEY, StoredRecords(completedTasks));
      UpdateStatistics(k, kind, rec.actualValue, today);
    }

    /** toggleTaskCompletion. */
    method ToggleTaskCompletion(k: Id, date: Day, today: Day, lastDay: Day)
      modifies this, store
      ensures Abs() == Toggled(old(Abs()), k, date, today, lastDay)
    {
      if IsCompletedOn(completedTasks, k, date) {
        completedTasks := WithoutRecordsOn(completedTasks, k, date);
        SaveData(COMPLETED_TASKS_KEY, StoredRecords(completedTasks));
        RecalculateDailyTaskStats();
        GenerateFutureTasks(today, lastDay);
        UpdateAllDisplays();
      }
    }

    /** deleteCompletionRecord. */
    method DeleteCompletionRecord(rid: Id, today: Day, lastDay: Day)
      modifies this, store
      ensures Abs() == RecordDeleted(old(Abs()), rid, today, lastDay)
    {
      var i := IndexOfRecord(completedTasks, rid);
      if i == -1 {
        return;
      }
      completedTasks := completedTasks[..i] + completedTasks[i + 1..];
      SaveData(COMPLETED_TASKS_KEY, StoredRecords(completedTasks));
      RecalculateDailyTaskStats();
      GenerateFutureTasks(today, lastDay);
      UpdateAllDisplays();
    }

    /** slideDailyStats. */
    method SlideDailyStats(dir: int)
      modifies this
      ensures Abs() == Slid(old(Abs()), dir)
    {
      var totalPages: int := PageCount(|statistics.dailyTaskStats.Keys|);
      currentDailyStatsPage := currentDailyStatsPage + dir;
      if currentDailyStatsPage < 0 {
        currentDailyStatsPage := totalPages - 1;
      } else if currentDailyStatsPage >= totalPages {
        currentDailyStatsPage := 0;
      }
    }

    /** mergeStatistics. */
    method MergeStatistics(guest: Option<Statistics>)
      modifies this
      ensures Abs() == StatsMerged(old(Abs()), guest)
    {
      if guest.None? {
        return;
      }
      var g := guest.value;
      var dc := AddCounts(statistics.dailyCompletions, g.dailyCompletions);
      var cats := AddCounts(statistics.taskCategories, g.taskCategories);
      statistics := statistics.(totalCompleted := statistics.totalCompleted + g.totalCompleted,
                                dailyCompletions := dc, taskCategories := cats);
    }

    /** saveAllData, for the local copy. */
    method SaveAllData(today: Day, lastDay: Day)
      modifies this, store
      ensures Abs() == SavedAll(old(Abs()), today, lastDay)
    {
      SaveData(DAILY_TASKS_KEY, StoredTasks(dailyTasks));
      SaveData(SINGLE_TASKS_KEY, StoredTasks(singleTasks));
      SaveData(COMPLETED_TASKS_KEY, StoredRecords(completedTasks));
      SaveData(STATISTICS_KEY, StoredStats(statistics));
      GenerateFutureTasks(today, lastDay);
      InitializeDailyTaskStats();
    }

    /** The three list merges at the head of mergeGuestData. */
    method MergeGuestLists(g: Snapshot)
      modifies this
      ensures Abs() == ListsMerged(old(Abs()), g)
    {
      dailyTasks := MergeInto(dailyTasks, g.dailyTasks, TaskIdOf);
      singleTasks := MergeInto(singleTasks, g.singleTasks, TaskIdOf);
      completedTasks := MergeInto(completedTasks, g.completedTasks, RecordIdOf);
    }

    /** mergeGuestData. */
    method MergeGuestData(g: Snapshot, today: Day, lastDay: Day)
      modifies this, store
      ensures Abs() == GuestMerged(old(Abs()), g, today, lastDay)
    {
      if |g.dailyTasks| == 0 && |g.singleTasks| == 0 && |g.completedTasks| == 0 {
        return;
      }
      MergeGuestLists(g);
      MergeStatistics(Some(g.statistics));
      SaveAllData(today, lastDay);
    }

    /** loadFromFirestore for a signed-in session, given how the read of the
        user document ended. */
    method LoadFromFirestore(cloud: CloudLoad, today: Day)
      modifies this, store
      ensures Abs() == CloudLoaded(old(Abs()), cloud, today)
    {
      match cloud {
        case Doc(c) =>
          dailyTasks := OrEmpty(c.dailyTasks);
          singleTasks := OrEmpty(c.singleTasks);
          completedTasks := OrEmpty(c.completedTasks);
          statistics := if c.statistics.Some? then c.statistics.value else InitialStatistics(today);
          if c.persistStartTime.Some? {
            persistStartTime := c.persistStartTime;
            SaveData(PERSIST_START_KEY, StoredTime(persistStartTime));
          }
        case NoDoc =>
        case Failed =>
          LoadLocal(today);
      }
    }

    /** loadAllData; `cloud` is None when nobody is signed in. */
    method LoadAllData(cloud: Option<CloudLoad>, today: Day, lastDay: Day)
      modifies this, store
      ensures Abs() == LoadedAll(old(Abs()), cloud, today, lastDay)
    {
      if cloud.Some? {
        LoadFromFirestore(cloud.value, today);
      } else {
        LoadLocal(today);
      }
      CleanupTaskClassification();
      GenerateFutureTasks(today, lastDay);
      InitializeDailyTaskStats();
      persistStartTime := LoadTime(Abs());
    }
  }

  /** AuthManager.onUserSignedIn with a task manager present. */
  method OnUserSignedIn(tm: TaskManager, uid: string, cloud: CloudLoad, today: Day, lastDay: Day)
    modifies tm, tm.store
    ensures tm.Abs() == SignedIn(old(tm.Abs()), uid, cloud, today, lastDay)
  {
    var guestData := Snapshot(tm.dailyTasks, tm.singleTasks, tm.completedTasks, tm.statistics);
    tm.userPrefix := UserPrefix(uid);
    tm.LoadAllData(Some(cloud), today, lastDay);
    tm.MergeGuestData(guestData, today, lastDay);
    tm.UpdateAllDisplays();
  }

  /** AuthManager.onUserSignedOut with a task manager present. */
  method OnUserSignedOut(tm: TaskManager, today: Day, lastDay: Day)
    modifies tm, tm.store
    ensures tm.Abs() == SignedOut(old(tm.Abs()), today, lastDay)
  {
    tm.userPrefix := GUEST_PREFIX;
    tm.LoadAllData(None, today, lastDay);
    tm.UpdateAllDisplays();
  }
}
