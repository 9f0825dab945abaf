/** What the operations of TaskManager promise, stated over the state
    functions of module Effects (which the class in Manager.dfy is proved to
    compute): where an operation saves, what it keeps, how the guest merge
    and the reload leave the data, and that signing in never touches another
    namespace's storage. */
module Properties {
  import opened Domain
  import opened Seqs
  import opened TaskStore
  import opened Projection
  import opened Stats
  import opened I18n
  import opened Effects

  // ------------------------------------------------------- frame helpers

  /** The refresh that ends most operations (generateFutureTasks, then
      updateAllDisplays) keeps the collections and the timer and only resets
      the total of the statistics. */
  lemma Refreshed(s: State, today: Day, lastDay: Day)
    ensures var r := Displayed(Generated(s, today, lastDay));
            r.userPrefix == s.userPrefix &&
            r.dailyTasks == s.dailyTasks && r.singleTasks == s.singleTasks &&
            r.completedTasks == s.completedTasks && r.persistStartTime == s.persistStartTime &&
            r.currentDailyStatsPage == s.currentDailyStatsPage &&
            r.statistics == s.statistics.(totalCompleted := |s.completedTasks|) &&
            r.futureTasks == Window(s.dailyTasks, s.singleTasks, s.completedTasks, today - 7, lastDay)
  {
  }

  /** The rebuild that follows every removal of records leaves the per-task
      entries consistent with the records that remain. */
  lemma RemovalRebuilds(s: State, rs: seq<Record>, today: Day, lastDay: Day)
    ensures var r := AfterRecordsRemoved(s, rs, today, lastDay);
            r.completedTasks == rs && r.dailyTasks == s.dailyTasks && r.singleTasks == s.singleTasks &&
            r.statistics.dailyTaskStats == Rebuild(s.statistics.dailyTaskStats, rs) &&
            Consistent(r.statistics.dailyTaskStats, rs) &&
            r.statistics.totalCompleted == |rs|
  {
    var s1 := Save(s.(completedTasks := rs), COMPLETED_TASKS_KEY, StoredRecords(rs));
    Refreshed(Recalculated(s1), today, lastDay);
    ConsistentIsFixpoint(s.statistics.dailyTaskStats, rs);
  }

  // --------------------------------------------------------- namespaces

  /** `r` has the prefix of `s` and the same storage outside that prefix. */
  ghost predicate Confined(s: State, r: State)
  {
    r.userPrefix == s.userPrefix &&
    forall key :: !(s.userPrefix <= key) ==>
      (key in r.storage <==> key in s.storage) && (key in s.storage ==> r.storage[key] == s.storage[key])
  }

  lemma ConfinedChain(a: State, b: State, c: State)
    requires Confined(a, b) && Confined(b, c)
    ensures Confined(a, c)
  {
  }

  /** saveData writes only under the session's prefix. */
  lemma SaveConfined(s: State, key: string, v: Stored)
    ensures Confined(s, Save(s, key, v))
  {
    assert s.userPrefix <= s.userPrefix + key;
  }

  lemma DisplayedConfined(s: State)
    ensures Confined(s, Displayed(s))
  {
    var st := s.statistics.(totalCompleted := |s.completedTasks|);
    SaveConfined(s.(statistics := st), STATISTICS_KEY, StoredStats(st));
  }

  lemma InitializedConfined(s: State)
    ensures Confined(s, Initialized(s))
  {
    var s1 := s.(statistics := s.statistics.(dailyTaskStats := Seed(s.statistics.dailyTaskStats, s.dailyTasks)));
    var st := s1.statistics.(dailyTaskStats := Rebuild(s1.statistics.dailyTaskStats, s1.completedTasks));
    SaveConfined(s1.(statistics := st), STATISTICS_KEY, StoredStats(st));
  }

  lemma CleanedConfined(s: State)
    ensures Confined(s, Cleaned(s))
  {
    var r := Reclassify(s.dailyTasks, s.singleTasks);
    if r != (s.dailyTasks, s.singleTasks) {
      var s0 := s.(dailyTasks := r.0, singleTasks := r.1);
      var s1 := Save(s0, DAILY_TASKS_KEY, StoredTasks(r.0));
      SaveConfined(s0, DAILY_TASKS_KEY, StoredTasks(r.0));
      SaveConfined(s1, SINGLE_TASKS_KEY, StoredTasks(r.1));
    }
  }

  lemma LoadedAllConfined(s: State, cloud: Option<CloudLoad>, today: Day, lastDay: Day)
    ensures Confined(s, LoadedAll(s, cloud, today, lastDay))
  {
    var s1 := if cloud.Some? then CloudLoaded(s, cloud.value, today) else LocallyLoaded(s, today);
    if cloud.Some? && cloud.value.Doc? && cloud.value.data.persistStartTime.Some? {
      var c := cloud.value.data;
      var s0 := s.(dailyTasks := OrEmpty(c.dailyTasks), singleTasks := OrEmpty(c.singleTasks),
                   completedTasks := OrEmpty(c.completedTasks),
                   statistics := if c.statistics.Some? then c.statistics.value else InitialStatistics(today),
                   persistStartTime := c.persistStartTime);
      SaveConfined(s0, PERSIST_START_KEY, StoredTime(c.persistStartTime));
    }
    assert Confined(s, s1);
    CleanedConfined(s1);
    var s2 := Generated(Cleaned(s1), today, lastDay);
    InitializedConfined(s2);
  }

  lemma SavedAllConfined(s: State, today: Day, lastDay: Day)
    ensures Confined(s, SavedAll(s, today, lastDay))
  {
    var s1 := Save(s, DAILY_TASKS_KEY, StoredTasks(s.dailyTasks));
    var s2 := Save(s1, SINGLE_TASKS_KEY, StoredTasks(s.singleTasks));
    var s3 := Save(s2, COMPLETED_TASKS_KEY, StoredRecords(s.completedTasks));
    var s4 := Save(s3, STATISTICS_KEY, StoredStats(s.statistics));
    SaveConfined(s, DAILY_TASKS_KEY, StoredTasks(s.dailyTasks));
    SaveConfined(s1, SINGLE_TASKS_KEY, StoredTasks(s.singleTasks));
    SaveConfined(s2, COMPLETED_TASKS_KEY, StoredRecords(s.completedTasks));
    SaveConfined(s3, STATISTICS_KEY, StoredStats(s.statistics));
    InitializedConfined(Generated(s4, today, lastDay));
  }

  lemma GuestMergedConfined(s: State, g: Snapshot, today: Day, lastDay: Day)
    ensures Confined(s, GuestMerged(s, g, today, lastDay))
  {
    if !EmptySnapshot(g) {
      var s1 := ListsMerged(s, g);
      SavedAllConfined(StatsMerged(s1, Some(g.statistics)), today, lastDay);
    }
  }

  /** onUserSignedIn switches to the user's namespace and writes nothing
      outside it: in particular the guest's local data survives the sign-in. */
  lemma SignInKeepsOtherNamespaces(s: State, uid: string, cloud: CloudLoad, today: Day, lastDay: Day)
    ensures var r := SignedIn(s, uid, cloud, today, lastDay);
            r.userPrefix == UserPrefix(uid) &&
            forall key :: !(UserPrefix(uid) <= key) ==>
              (key in r.storage <==> key in s.storage) && (key in s.storage ==> r.storage[key] == s.storage[key])
  {
    var s0 := s.(userPrefix := UserPrefix(uid));
    var s1 := LoadedAll(s0, Some(cloud), today, lastDay);
    var s2 := GuestMerged(s1, SnapshotOf(s), today, lastDay);
    LoadedAllConfined(s0, Some(cloud), today, lastDay);
    GuestMergedConfined(s1, SnapshotOf(s), today, lastDay);
    DisplayedConfined(s2);
    ConfinedChain(s0, s1, s2);
    ConfinedChain(s0, s2, Displayed(s2));
  }

  /** The guest namespace and a user's are disjoint. */
  lemma GuestKeysSurviveSignIn(s: State, uid: string, cloud: CloudLoad, today: Day, lastDay: Day, key: string)
    requires GUEST_PREFIX <= key
    ensures var r := SignedIn(s, uid, cloud, today, lastDay);
            (key in r.storage <==> key in s.storage) && (key in s.storage ==> r.storage[key] == s.storage[key])
  {
    SignInKeepsOtherNamespaces(s, uid, cloud, today, lastDay);
    assert key[0] == 'g';
    assert !(UserPrefix(uid) <= key);
  }

  // ------------------------------------------------------------- cleanup

  /** cleanupTaskClassification leaves no 'single' task among the daily
      tasks and no 'daily' task among the single ones, loses or duplicates no
      task of either kind, changes nothing (and saves nothing) exactly when
      nothing was misfiled, and so a second pass changes nothing. */
  lemma CleanupSeparates(s: State, x: Task)
    ensures var r := Cleaned(s);
            Separated(r.dailyTasks, r.singleTasks) &&
            (IsKnownKind(x) ==> multiset(r.dailyTasks + r.singleTasks)[x] == multiset(s.dailyTasks + s.singleTasks)[x]) &&
            (r == s <==> Separated(s.dailyTasks, s.singleTasks)) &&
            Cleaned(r) == r
  {
    var rc := Reclassify(s.dailyTasks, s.singleTasks);
    ReclassifyFixpoint(s.dailyTasks, s.singleTasks);
    ReclassifyConserves(s.dailyTasks, s.singleTasks, x);
    var r := Cleaned(s);
    assert r.dailyTasks == rc.0 && r.singleTasks == rc.1;
    ReclassifyFixpoint(rc.0, rc.1);
  }

  // ------------------------------------------------------------ deletion

  /** deleteTask of a single task (any kind but 'daily'), or of a daily task
      with the permanent flag: the task and every record of it go, everything
      else stays with its multiplicity; the permanent daily branch also drops
      the task's statistics entry. The other list is untouched. */
  lemma DeleteCascades(s: State, k: Id, kind: string, permanent: bool, today: Day, lastDay: Day, t: Task, x: Record)
    requires kind != DAILY || permanent
    ensures var r := Deleted(s, k, kind, permanent, today, lastDay);
            var before := if kind == DAILY then s.dailyTasks else s.singleTasks;
            var after := if kind == DAILY then r.dailyTasks else r.singleTasks;
            (t in after <==> t in before && t.id != k) &&
            multiset(after)[t] == (if t.id != k then multiset(before)[t] else 0) &&
            (x in r.completedTasks <==> x in s.completedTasks && x.taskId != k) &&
            multiset(r.completedTasks)[x] == (if x.taskId != k then multiset(s.completedTasks)[x] else 0) &&
            (kind == DAILY ==>
               r.singleTasks == s.singleTasks && r.statistics.dailyTaskStats == s.statistics.dailyTaskStats - {k}) &&
            (kind != DAILY ==>
               r.dailyTasks == s.dailyTasks && r.statistics.dailyTaskStats == s.statistics.dailyTaskStats) &&
            r.statistics.totalCompleted == |r.completedTasks|
  {
    DeleteCascadeFrame(s, k, kind, permanent, today, lastDay);
    WithoutRecordsCount(s.completedTasks, k, x);
    WithoutTaskCount(if kind == DAILY then s.dailyTasks else s.singleTasks, k, t);
  }

  /** deleteTask of a daily task without the permanent flag changes no
      collection and no statistics entry. */
  lemma DeleteDailyKeeps(s: State, k: Id, today: Day, lastDay: Day)
    ensures var r := Deleted(s, k, DAILY, false, today, lastDay);
            r.dailyTasks == s.dailyTasks && r.singleTasks == s.singleTasks &&
            r.completedTasks == s.completedTasks &&
            r.statistics.dailyTaskStats == s.statistics.dailyTaskStats
  {
    Refreshed(s, today, lastDay);
  }

  /** Deleting an id that no task and no record carries changes no
      collection; only the permanent daily branch drops a leftover statistics
      entry of that id. */
  lemma DeleteUnknownKeeps(s: State, k: Id, kind: string, permanent: bool, today: Day, lastDay: Day)
    requires forall t :: t in s.dailyTasks + s.singleTasks ==> t.id != k
    requires forall x :: x in s.completedTasks ==> x.taskId != k
    ensures var r := Deleted(s, k, kind, permanent, today, lastDay);
            r.dailyTasks == s.dailyTasks && r.singleTasks == s.singleTasks &&
            r.completedTasks == s.completedTasks &&
            r.statistics.dailyTaskStats ==
              if kind == DAILY && permanent then s.statistics.dailyTaskStats - {k} else s.statistics.dailyTaskStats
  {
    assert forall t :: t in s.dailyTasks ==> t in s.dailyTasks + s.singleTasks;
    assert forall t :: t in s.singleTasks ==> t in s.dailyTasks + s.singleTasks;
    FilterAll(s.completedTasks, (r: Record) => r.taskId != k);
    if kind == DAILY && permanent {
      FilterAll(s.dailyTasks, (t: Task) => t.id != k);
      DeleteCascadeFrame(s, k, kind, permanent, today, lastDay);
    } else if kind != DAILY {
      FilterAll(s.singleTasks, (t: Task) => t.id != k);
      DeleteCascadeFrame(s, k, kind, permanent, today, lastDay);
    } else {
      DeleteDailyKeeps(s, k, today, lastDay);
    }
  }

  /** The collections and entries deleteTask leaves, as filters. */
  lemma DeleteCascadeFrame(s: State, k: Id, kind: string, permanent: bool, today: Day, lastDay: Day)
    requires kind != DAILY || permanent
    ensures var r := Deleted(s, k, kind, permanent, today, lastDay);
            r.completedTasks == WithoutRecordsOf(s.completedTasks, k) &&
            (kind == DAILY ==>
               r.dailyTasks == WithoutTask(s.dailyTasks, k) && r.singleTasks == s.singleTasks &&
               r.statistics.dailyTaskStats == s.statistics.dailyTaskStats - {k}) &&
            (kind != DAILY ==>
               r.singleTasks == WithoutTask(s.singleTasks, k) && r.dailyTasks == s.dailyTasks &&
               r.statistics.dailyTaskStats == s.statistics.dailyTaskStats) &&
            r.statistics.totalCompleted == |r.completedTasks|
  {
    var s1 := if kind == DAILY then DailyDeleted(s, k) else SingleDeleted(s, k);
    Refreshed(s1, today, lastDay);
    if k !in s.statistics.dailyTaskStats {
      assert s.statistics.dailyTaskStats - {k} == s.statistics.dailyTaskStats;
    }
  }

  // ---------------------------------------------------------------- adding

  /** addTask appends the new task to the daily list exactly when its type is
      'daily' and to the single list otherwise, with a target of 1 when none
      (or zero) was given; on every day of the window where it is due, the
      projection lists it, not completed unless a record of its id exists. */
  lemma AddRoutesByKind(s: State, data: TaskInput, id: Id, today: Day, texts: map<string, string>, lastDay: Day, d: Day)
    requires today - 7 <= d <= lastDay
    ensures var r := Added(s, data, id, today, texts, lastDay);
            var t := NewTask(data, id, today, GetUnit(texts, data.dimension));
            (data.targetValue.None? || data.targetValue.value == 0 ==> t.targetValue == 1) &&
            (data.kind == DAILY ==> r.dailyTasks == s.dailyTasks + [t] && r.singleTasks == s.singleTasks) &&
            (data.kind != DAILY ==> r.singleTasks == s.singleTasks + [t] && r.dailyTasks == s.dailyTasks) &&
            r.completedTasks == s.completedTasks &&
            r.statistics.dailyTaskStats == s.statistics.dailyTaskStats &&
            ((data.kind == DAILY && ActiveOn(t, d)) || (data.kind != DAILY && data.date == Some(d)) ==>
               Occurrence(t, d, IsCompletedOn(s.completedTasks, id, d)) in r.futureTasks[d])
  {
    var t := NewTask(data, id, today, GetUnit(texts, data.dimension));
    var s1 :=
      if t.kind == DAILY then Save(s.(dailyTasks := s.dailyTasks + [t]), DAILY_TASKS_KEY, StoredTasks(s.dailyTasks + [t]))
      else Save(s.(singleTasks := s.singleTasks + [t]), SINGLE_TASKS_KEY, StoredTasks(s.singleTasks + [t]));
    Refreshed(s1, today, lastDay);
    ProjectionMeaning(s1.dailyTasks, s1.singleTasks, s1.completedTasks, d, Occurrence(t, d, IsCompletedOn(s.completedTasks, id, d)));
    if IsCompletedOn(s.completedTasks, id, d) {
      var i :| 0 <= i < |s.completedTasks| && s.completedTasks[i].taskId == id && s.completedTasks[i].date == d;
      assert s.completedTasks[i] in s.completedTasks;
    }
  }

  // ------------------------------------------------------------ completion

  /** completeTask appends exactly one record, at the end, with the given
      ids, day and note and the value `customValue || targetValue || 1` of
      the task found first among the daily, then the single tasks; the timer
      starts only when it was not running; today's completion counter and
      the kind's counter go up by one and no other counter changes; the
      streak then covers today. The task lists do not change and the total is
      left for the next display update. */
  lemma CompletionAppendsOne(s: State, k: Id, kind: string, date: Day, custom: Option<real>, note: string,
                             rid: Id, now: int, today: Day)
    requires forall d :: Get0(s.statistics.dailyCompletions, d) >= 0
    ensures var r := Completed(s, k, kind, date, custom, note, rid, now, today);
            var n := |s.completedTasks|;
            |r.completedTasks| == n + 1 && r.completedTasks[..n] == s.completedTasks &&
            r.completedTasks[n].id == rid && r.completedTasks[n].taskId == k &&
            r.completedTasks[n].date == date && r.completedTasks[n].note == note &&
            r.completedTasks[n].actualValue == ActualValue(custom, FindTask(s.dailyTasks, s.singleTasks, k)) &&
            r.dailyTasks == s.dailyTasks && r.singleTasks == s.singleTasks &&
            r.persistStartTime == (if s.persistStartTime.None? then Some(now) else s.persistStartTime) &&
            Get0(r.statistics.dailyCompletions, today) == Get0(s.statistics.dailyCompletions, today) + 1 &&
            (forall d :: d != today ==> Get0(r.statistics.dailyCompletions, d) == Get0(s.statistics.dailyCompletions, d)) &&
            Get0(r.statistics.taskCategories, kind) == Get0(s.statistics.taskCategories, kind) + 1 &&
            r.statistics.streakDays >= 1 &&
            r.statistics.totalCompleted == s.statistics.totalCompleted
  {
    var rec := CompletionRecord(s, k, kind, date, custom, note, rid, now);
    var s1 := if s.persistStartTime.None? then Save(s.(persistStartTime := Some(now)), PERSIST_START_KEY, StoredTime(Some(now))) else s;
    var s2 := Save(s1.(completedTasks := s1.completedTasks + [rec]), COMPLETED_TASKS_KEY, StoredRecords(s1.completedTasks + [rec]));
    assert s2.statistics == s.statistics && s2.completedTasks == s.completedTasks + [rec];
    var r := StatsUpdated(s2, k, kind, rec.actualValue, today);
    assert r.completedTasks == s2.completedTasks && r.persistStartTime == s1.persistStartTime;
    CompletionCounters(s2, k, kind, rec.actualValue, today);
    assert (s.completedTasks + [rec])[..|s.completedTasks|] == s.completedTasks;
  }

  /** The counters updateStatistics touches. */
  lemma CompletionCounters(s: State, k: Id, kind: string, v: real, today: Day)
    requires forall d :: Get0(s.statistics.dailyCompletions, d) >= 0
    ensures var st := StatsUpdated(s, k, kind, v, today).statistics;
            Get0(st.dailyCompletions, today) == Get0(s.statistics.dailyCompletions, today) + 1 &&
            (forall d :: d != today ==> Get0(st.dailyCompletions, d) == Get0(s.statistics.dailyCompletions, d)) &&
            Get0(st.taskCategories, kind) == Get0(s.statistics.taskCategories, kind) + 1 &&
            st.streakDays >= 1 && st.totalCompleted == s.statistics.totalCompleted
  {
    BumpTodayExtendsStreak(s.statistics.dailyCompletions, today);
  }

  /** Completing a daily task today, with entries that agree with the
      records and an entry for the task, keeps the entries in agreement with
      the records: the incremental update is the rebuild. */
  lemma CompletionKeepsConsistent(s: State, k: Id, kind: string, custom: Option<real>, note: string,
                                  rid: Id, now: int, today: Day)
    requires Consistent(s.statistics.dailyTaskStats, s.completedTasks)
    requires k in s.statistics.dailyTaskStats
    requires exists t :: t in s.dailyTasks && t.id == k
    ensures var r := Completed(s, k, kind, today, custom, note, rid, now, today);
            Consistent(r.statistics.dailyTaskStats, r.completedTasks)
  {
    var rec := CompletionRecord(s, k, kind, today, custom, note, rid, now);
    var dts := s.statistics.dailyTaskStats;
    IncrementalMatchesRebuild(dts, s.dailyTasks, s.completedTasks, rec, today);
    ConsistentIsFixpoint(dts, s.completedTasks + [rec]);
  }

  // ------------------------------------------------------ record removal

  /** toggleTaskCompletion removes every record of the (task, day) pair and
      nothing else, after which the pair is no longer completed and the
      entries agree with the records; for a pair that is not completed it
      changes nothing at all. */
  lemma ToggleRemovesPair(s: State, k: Id, date: Day, today: Day, lastDay: Day, x: Record)
    ensures var r := Toggled(s, k, date, today, lastDay);
            (x in r.completedTasks <==> x in s.completedTasks && !(x.taskId == k && x.date == date)) &&
            multiset(r.completedTasks)[x] == (if x.taskId == k && x.date == date then 0 else multiset(s.completedTasks)[x]) &&
            !IsCompletedOn(r.completedTasks, k, date) &&
            r.dailyTasks == s.dailyTasks && r.singleTasks == s.singleTasks &&
            (!IsCompletedOn(s.completedTasks, k, date) ==> r == s) &&
            (IsCompletedOn(s.completedTasks, k, date) ==> Consistent(r.statistics.dailyTaskStats, r.completedTasks))
  {
    var p := (r: Record) => !(r.taskId == k && r.date == date);
    FilterCount(s.completedTasks, p, x);
    if IsCompletedOn(s.completedTasks, k, date) {
      var rs := WithoutRecordsOn(s.completedTasks, k, date);
      RemovalRebuilds(s, rs, today, lastDay);
      forall i | 0 <= i < |rs| ensures !(rs[i].taskId == k && rs[i].date == date) {
        assert rs[i] in rs;
      }
    } else if x in s.completedTasks {
      var i :| 0 <= i < |s.completedTasks| && s.completedTasks[i] == x;
    }
  }

  /** deleteCompletionRecord removes one record, the first with the id, and
      keeps the others in order; an unknown id changes nothing. */
  lemma RecordDeletionRemovesOne(s: State, rid: Id, today: Day, lastDay: Day)
    ensures var r := RecordDeleted(s, rid, today, lastDay);
            ((forall x :: x in s.completedTasks ==> x.id != rid) ==> r == s) &&
            ((exists x :: x in s.completedTasks && x.id == rid) ==>
               var i := IndexOfRecord(s.completedTasks, rid);
               r.completedTasks == s.completedTasks[..i] + s.completedTasks[i + 1..] &&
               s.completedTasks[i].id == rid && (forall j :: 0 <= j < i ==> s.completedTasks[j].id != rid) &&
               Consistent(r.statistics.dailyTaskStats, r.completedTasks) &&
               r.dailyTasks == s.dailyTasks && r.singleTasks == s.singleTasks)
  {
    var cs := s.completedTasks;
    var i := IndexOfRecord(cs, rid);
    if i == -1 {
      assert RecordDeleted(s, rid, today, lastDay) == s;
    } else {
      var rs := WithoutFirstRecord(cs, rid);
      assert rs == cs[..i] + cs[i + 1..];
      assert RecordDeleted(s, rid, today, lastDay) == AfterRecordsRemoved(s, rs, today, lastDay);
      RemovalRebuilds(s, rs, today, lastDay);
    }
  }

  // ----------------------------------------------------------- guest merge

  /** initializeDailyTaskStats after a projection: the collections stay, the
      entries are seeded and rebuilt, so they agree with the records and
      every daily task has one. */
  lemma Reinitialized(s: State, today: Day, lastDay: Day)
    ensures var r := Initialized(Generated(s, today, lastDay));
            r.userPrefix == s.userPrefix && r.persistStartTime == s.persistStartTime &&
            r.dailyTasks == s.dailyTasks && r.singleTasks == s.singleTasks && r.completedTasks == s.completedTasks &&
            r.statistics == s.statistics.(dailyTaskStats := r.statistics.dailyTaskStats) &&
            Consistent(r.statistics.dailyTaskStats, r.completedTasks) &&
            (forall t :: t in r.dailyTasks ==> t.id in r.statistics.dailyTaskStats) &&
            (forall k :: k in s.statistics.dailyTaskStats ==> k in r.statistics.dailyTaskStats)
  {
    var seeded := Seed(s.statistics.dailyTaskStats, s.dailyTasks);
    ConsistentIsFixpoint(seeded, s.completedTasks);
  }

  /** saveAllData keeps the data and rebuilds the entries. */
  lemma SavedAllKeeps(s: State, today: Day, lastDay: Day)
    ensures var r := SavedAll(s, today, lastDay);
            r.dailyTasks == s.dailyTasks && r.singleTasks == s.singleTasks && r.completedTasks == s.completedTasks &&
            r.statistics == s.statistics.(dailyTaskStats := r.statistics.dailyTaskStats) &&
            Consistent(r.statistics.dailyTaskStats, r.completedTasks) &&
            (forall t :: t in r.dailyTasks ==> t.id in r.statistics.dailyTaskStats)
  {
    var s1 := Save(s, DAILY_TASKS_KEY, StoredTasks(s.dailyTasks));
    var s2 := Save(s1, SINGLE_TASKS_KEY, StoredTasks(s.singleTasks));
    var s3 := Save(s2, COMPLETED_TASKS_KEY, StoredRecords(s.completedTasks));
    var s4 := Save(s3, STATISTICS_KEY, StoredStats(s.statistics));
    assert s4.(storage := s.storage) == s;
    Reinitialized(s4, today, lastDay);
  }

  /** mergeGuestData: an empty snapshot changes nothing. Otherwise each list
      keeps its items in order and gains at its end guest items whose id it
      lacked, until every guest id is present; the total and both counter
      maps are summed (an account entry the guest lacks is kept); and the
      rebuilt entries agree with the merged records. */
  lemma GuestMergeUnion(s: State, g: Snapshot, today: Day, lastDay: Day)
    ensures var r := GuestMerged(s, g, today, lastDay);
            (EmptySnapshot(g) ==> r == s) &&
            (!EmptySnapshot(g) ==>
               r.dailyTasks == MergeById(s.dailyTasks, g.dailyTasks, TaskIdOf) &&
               r.singleTasks == MergeById(s.singleTasks, g.singleTasks, TaskIdOf) &&
               r.completedTasks == MergeById(s.completedTasks, g.completedTasks, RecordIdOf) &&
               s.dailyTasks <= r.dailyTasks && s.singleTasks <= r.singleTasks && s.completedTasks <= r.completedTasks &&
               (forall t :: t in g.dailyTasks ==> HasId(r.dailyTasks, TaskIdOf, t.id)) &&
               (forall t :: t in g.singleTasks ==> HasId(r.singleTasks, TaskIdOf, t.id)) &&
               (forall x :: x in g.completedTasks ==> HasId(r.completedTasks, RecordIdOf, x.id)) &&
               r.statistics.totalCompleted == s.statistics.totalCompleted + g.statistics.totalCompleted &&
               (forall d :: d in g.statistics.dailyCompletions ==>
                  r.statistics.dailyCompletions[d] == Get0(s.statistics.dailyCompletions, d) + g.statistics.dailyCompletions[d]) &&
               (forall d :: d in s.statistics.dailyCompletions && d !in g.statistics.dailyCompletions ==>
                  r.statistics.dailyCompletions[d] == s.statistics.dailyCompletions[d]) &&
               (forall c :: c in g.statistics.taskCategories ==>
                  r.statistics.taskCategories[c] == Get0(s.statistics.taskCategories, c) + g.statistics.taskCategories[c]) &&
               (forall c :: c in s.statistics.taskCategories && c !in g.statistics.taskCategories ==>
                  r.statistics.taskCategories[c] == s.statistics.taskCategories[c]) &&
               Consistent(r.statistics.dailyTaskStats, r.completedTasks))
  {
    if !EmptySnapshot(g) {
      var s1 := ListsMerged(s, g);
      var s2 := StatsMerged(s1, Some(g.statistics));
      SavedAllKeeps(s2, today, lastDay);
    }
  }

  /** Merging the same snapshot again leaves the three lists as they are,
      but adds the guest's counters a second time. */
  lemma GuestMergeTwice(s: State, g: Snapshot, today: Day, lastDay: Day)
    ensures var r1 := GuestMerged(s, g, today, lastDay);
            var r2 := GuestMerged(r1, g, today, lastDay);
            r2.dailyTasks == r1.dailyTasks && r2.singleTasks == r1.singleTasks &&
            r2.completedTasks == r1.completedTasks &&
            (!EmptySnapshot(g) ==>
               r2.statistics.totalCompleted == r1.statistics.totalCompleted + g.statistics.totalCompleted)
  {
    var r1 := GuestMerged(s, g, today, lastDay);
    GuestMergeUnion(s, g, today, lastDay);
    GuestMergeUnion(r1, g, today, lastDay);
    MergeIdempotent(s.dailyTasks, g.dailyTasks, TaskIdOf);
    MergeIdempotent(s.singleTasks, g.singleTasks, TaskIdOf);
    MergeIdempotent(s.completedTasks, g.completedTasks, RecordIdOf);
  }

  // ------------------------------------------------------ loading, sessions

  /** The records loadAllData ends up with: the document's when there is one,
      the account's current ones when there is none, the local copy when
      signed out or when the read failed. */
  function LoadedRecords(s: State, cloud: Option<CloudLoad>): seq<Record>
  {
    match cloud
    case None => LoadRecords(s, COMPLETED_TASKS_KEY)
    case Some(Doc(c)) => OrEmpty(c.completedTasks)
    case Some(NoDoc) => s.completedTasks
    case Some(Failed) => LoadRecords(s, COMPLETED_TASKS_KEY)
  }

  /** After loadAllData the task lists are separated, the per-task entries
      agree with the records and cover every daily task, the records are the
      ones read, the projection spans a week before today to the last day,
      and the timer's start is the one in local storage. */
  lemma LoadLeavesDataClean(s: State, cloud: Option<CloudLoad>, today: Day, lastDay: Day)
    ensures var r := LoadedAll(s, cloud, today, lastDay);
            Separated(r.dailyTasks, r.singleTasks) &&
            Consistent(r.statistics.dailyTaskStats, r.completedTasks) &&
            (forall t :: t in r.dailyTasks ==> t.id in r.statistics.dailyTaskStats) &&
            r.completedTasks == LoadedRecords(s, cloud) &&
            (forall d :: d in r.futureTasks <==> today - 7 <= d <= lastDay) &&
            r.persistStartTime == LoadTime(r) && r.userPrefix == s.userPrefix
  {
    var s1 := if cloud.Some? then CloudLoaded(s, cloud.value, today) else LocallyLoaded(s, today);
    assert s1.completedTasks == LoadedRecords(s, cloud) && s1.userPrefix == s.userPrefix;
    CleanedKeeps(s1);
    var c1 := Cleaned(s1);
    Reinitialized(c1, today, lastDay);
    var s2 := Initialized(Generated(c1, today, lastDay));
    assert LoadedAll(s, cloud, today, lastDay) == s2.(persistStartTime := LoadTime(s2));
  }

  /** cleanupTaskClassification touches only the two task lists and their
      storage, and leaves them separated. */
  lemma CleanedKeeps(s: State)
    ensures var r := Cleaned(s);
            Separated(r.dailyTasks, r.singleTasks) &&
            r.completedTasks == s.completedTasks && r.statistics == s.statistics &&
            r.userPrefix == s.userPrefix && r.persistStartTime == s.persistStartTime &&
            r.futureTasks == s.futureTasks && r.currentDailyStatsPage == s.currentDailyStatsPage
  {
  }

  /** A first sign-in (no user document yet) loads the guest's own data as
      the account's and then merges the guest snapshot into it: the records
      are not duplicated, but every day's and every kind's completion counter
      is doubled; the total is reset to the number of records. */
  lemma FirstSignInCountsTwice(s: State, uid: string, today: Day, lastDay: Day)
    requires !EmptySnapshot(SnapshotOf(s))
    ensures var r := SignedIn(s, uid, NoDoc, today, lastDay);
            r.completedTasks == s.completedTasks &&
            r.statistics.totalCompleted == |s.completedTasks| &&
            (forall d :: d in s.statistics.dailyCompletions ==>
               r.statistics.dailyCompletions[d] == 2 * s.statistics.dailyCompletions[d]) &&
            (forall c :: c in s.statistics.taskCategories ==>
               r.statistics.taskCategories[c] == 2 * s.statistics.taskCategories[c])
  {
    var g := SnapshotOf(s);
    var s0 := s.(userPrefix := UserPrefix(uid));
    var s1 := LoadedAll(s0, Some(NoDoc), today, lastDay);
    NoDocKeepsCounters(s0, today, lastDay);
    forall x | x in g.completedTasks ensures HasId(s1.completedTasks, RecordIdOf, x.id) {
      var i :| 0 <= i < |s.completedTasks| && s.completedTasks[i] == x;
    }
    OwnSnapshotMerge(s1, g, today, lastDay);
    var s2 := GuestMerged(s1, g, today, lastDay);
    MergeSelfDoubles(s.statistics.dailyCompletions);
    MergeSelfDoubles(s.statistics.taskCategories);
    assert SignedIn(s, uid, NoDoc, today, lastDay) == Displayed(s2);
  }

  /** Merging a snapshot whose records are all present already keeps the
      records and sums the day counters. */
  lemma OwnSnapshotMerge(s: State, g: Snapshot, today: Day, lastDay: Day)
    requires !EmptySnapshot(g)
    requires forall x :: x in g.completedTasks ==> HasId(s.completedTasks, RecordIdOf, x.id)
    ensures var r := GuestMerged(s, g, today, lastDay);
            r.completedTasks == s.completedTasks &&
            r.statistics.dailyCompletions == MergeCounts(s.statistics.dailyCompletions, g.statistics.dailyCompletions) &&
            r.statistics.taskCategories == MergeCounts(s.statistics.taskCategories, g.statistics.taskCategories)
  {
    MergeAllPresent(s.completedTasks, g.completedTasks, RecordIdOf);
    SavedAllKeeps(StatsMerged(ListsMerged(s, g), Some(g.statistics)), today, lastDay);
  }

  /** Without a document loadAllData keeps the counters. */
  lemma NoDocKeepsCounters(s: State, today: Day, lastDay: Day)
    ensures LoadedAll(s, Some(NoDoc), today, lastDay).statistics.dailyCompletions == s.statistics.dailyCompletions
    ensures LoadedAll(s, Some(NoDoc), today, lastDay).statistics.taskCategories == s.statistics.taskCategories
    ensures LoadedAll(s, Some(NoDoc), today, lastDay).completedTasks == s.completedTasks
  {
    CleanedKeeps(s);
    Reinitialized(Cleaned(s), today, lastDay);
  }

  /** What a session shows: the lists, the statistics, the projection and
      the timer's start (not the storage and not the paging position). */
  function Shown(s: State): (seq<Task>, seq<Task>, seq<Record>, Statistics, map<Day, seq<Occurrence>>, Option<int>)
  {
    (s.dailyTasks, s.singleTasks, s.completedTasks, s.statistics, s.futureTasks, s.persistStartTime)
  }

  /** Two storages hold the same values under prefix `p`. */
  ghost predicate AgreeUnder(a: map<string, Stored>, b: map<string, Stored>, p: string)
  {
    forall key :: p <= key ==> (key in a <==> key in b) && (key in a ==> a[key] == b[key])
  }

  /** The state a load works from: the prefix, the lists and the statistics. */
  function Core(s: State): (string, seq<Task>, seq<Task>, seq<Record>, Statistics)
  {
    (s.userPrefix, s.dailyTasks, s.singleTasks, s.completedTasks, s.statistics)
  }

  lemma KeysApart(p: string, k: string, k': string)
    requires k != k'
    ensures p + k != p + k'
  {
    assert (p + k)[|p|..] == k && (p + k')[|p|..] == k';
  }

  /** `r` holds what `x` holds under `key`. */
  ghost predicate KeepsKey(x: State, r: State, key: string)
  {
    (key in r.storage <==> key in x.storage) && (key in x.storage ==> r.storage[key] == x.storage[key])
  }

  /** Saving the statistics does not touch the timer's start. */
  lemma StatsSaveKeepsTime(x: State, st: Statistics)
    ensures KeepsKey(x, Save(x.(statistics := st), STATISTICS_KEY, StoredStats(st)), x.userPrefix + PERSIST_START_KEY)
  {
    KeysApart(x.userPrefix, PERSIST_START_KEY, STATISTICS_KEY);
  }

  lemma CleanedCongruent(x: State, y: State)
    requires Core(x) == Core(y)
    ensures Core(Cleaned(x)) == Core(Cleaned(y))
    ensures KeepsKey(x, Cleaned(x), x.userPrefix + PERSIST_START_KEY)
  {
    KeysApart(x.userPrefix, PERSIST_START_KEY, DAILY_TASKS_KEY);
    KeysApart(x.userPrefix, PERSIST_START_KEY, SINGLE_TASKS_KEY);
  }

  lemma InitializedCongruent(x: State, y: State)
    requires Core(x) == Core(y)
    ensures Core(Initialized(x)) == Core(Initialized(y))
    ensures Initialized(x).futureTasks == x.futureTasks
    ensures KeepsKey(x, Initialized(x), x.userPrefix + PERSIST_START_KEY)
  {
    var s1 := x.(statistics := x.statistics.(dailyTaskStats := Seed(x.statistics.dailyTaskStats, x.dailyTasks)));
    var st := s1.statistics.(dailyTaskStats := Rebuild(s1.statistics.dailyTaskStats, s1.completedTasks));
    StatsSaveKeepsTime(s1, st);
  }

  /** The steps of loadAllData after the read compute the same lists,
      statistics and projection from the same lists and statistics, and
      leave the stored timer's start alone. */
  lemma PipelineCongruent(x: State, y: State, today: Day, lastDay: Day)
    requires Core(x) == Core(y)
    ensures var rx := Initialized(Generated(Cleaned(x), today, lastDay));
            var ry := Initialized(Generated(Cleaned(y), today, lastDay));
            Core(rx) == Core(ry) && rx.futureTasks == ry.futureTasks &&
            KeepsKey(x, rx, x.userPrefix + PERSIST_START_KEY)
  {
    CleanedCongruent(x, y);
    var cx, cy := Cleaned(x), Cleaned(y);
    InitializedCongruent(Generated(cx, today, lastDay), Generated(cy, today, lastDay));
  }

  /** The signed-out reload, step by step. */
  lemma LocalLoadParts(a: State, today: Day, lastDay: Day)
    ensures var ra := Initialized(Generated(Cleaned(LocallyLoaded(a, today)), today, lastDay));
            Shown(Displayed(LoadedAll(a, None, today, lastDay))) ==
              (ra.dailyTasks, ra.singleTasks, ra.completedTasks, ra.statistics.(totalCompleted := |ra.completedTasks|),
               ra.futureTasks, LoadTime(ra))
  {
  }

  /** onUserSignedOut's reload depends only on what is stored under the
      prefix. */
  lemma LocalLoadCongruent(a: State, b: State, today: Day, lastDay: Day)
    requires a.userPrefix == b.userPrefix && AgreeUnder(a.storage, b.storage, a.userPrefix)
    ensures Shown(Displayed(LoadedAll(a, None, today, lastDay))) == Shown(Displayed(LoadedAll(b, None, today, lastDay)))
  {
    var p := a.userPrefix;
    var la, lb := LocallyLoaded(a, today), LocallyLoaded(b, today);
    assert Core(la) == Core(lb) by {
      assert p <= p + DAILY_TASKS_KEY && p <= p + SINGLE_TASKS_KEY;
      assert p <= p + COMPLETED_TASKS_KEY && p <= p + STATISTICS_KEY;
    }
    assert p <= p + PERSIST_START_KEY;
    LocalLoadParts(a, today, lastDay);
    LocalLoadParts(b, today, lastDay);
    PipelineCongruent(la, lb, today, lastDay);
    PipelineCongruent(lb, la, today, lastDay);
  }

  /** Signing in and then out again shows the guest the same data as
      signing out alone would: the account session never disturbs the
      guest's stored lists, statistics or timer. */
  lemma SignOutAfterSignIn(s: State, uid: string, cloud: CloudLoad, today: Day, lastDay: Day)
    ensures Shown(SignedOut(SignedIn(s, uid, cloud, today, lastDay), today, lastDay)) ==
            Shown(SignedOut(s, today, lastDay))
  {
    var r := SignedIn(s, uid, cloud, today, lastDay);
    forall key | GUEST_PREFIX <= key
      ensures (key in r.storage <==> key in s.storage) && (key in r.storage ==> r.storage[key] == s.storage[key])
    {
      GuestKeysSurviveSignIn(s, uid, cloud, today, lastDay, key);
    }
    LocalLoadCongruent(r.(userPrefix := GUEST_PREFIX), s.(userPrefix := GUEST_PREFIX), today, lastDay);
  }
}
