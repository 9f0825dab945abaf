/** The statistics the task manager derives (script.js, TaskManager):
    the streak over the dailyCompletions map, the weekly completion rate over
    the projection, the per-task cumulative entries (incremental update and
    full rebuild), the counter merge of a guest session and the paging of the
    per-task cards. */
module Stats {
  import opened Domain
  import opened Seqs
  import opened TaskStore

  // ---------------------------------------------------------------- streak

  /** The longest look-back of calculateStreakDays. */
  const STREAK_WINDOW: nat := 365

  /** The day `j` days before today has a positive completion count. */
  predicate PositiveBack(dc: map<Day, int>, today: Day, j: int)
  {
    Get0(dc, today - j) > 0
  }

  /** The streak counted from i days back: how many further consecutive days,
      going backwards from today - i, have a positive count, stopping at the
      window. */
  function StreakFrom(dc: map<Day, int>, today: Day, i: nat): (n: nat)
    requires i <= STREAK_WINDOW
    ensures i <= n <= STREAK_WINDOW
    ensures forall j :: i <= j < n ==> PositiveBack(dc, today, j)
    ensures n < STREAK_WINDOW ==> !PositiveBack(dc, today, n)
    decreases STREAK_WINDOW - i
  {
    if i == STREAK_WINDOW then i
    else if PositiveBack(dc, today, i) then StreakFrom(dc, today, i + 1)
    else i
  }

  /** calculateStreakDays: the length of the run of days ending today whose
      dailyCompletions entry is positive, capped at 365. */
  function Streak(dc: map<Day, int>, today: Day): (n: nat)
    ensures n <= STREAK_WINDOW
    ensures forall j :: 0 <= j < n ==> PositiveBack(dc, today, j)
    ensures n < STREAK_WINDOW ==> !PositiveBack(dc, today, n)
  {
    StreakFrom(dc, today, 0)
  }

  /** The three facts above pin the streak down: no other number has them. */
  lemma StreakUnique(dc: map<Day, int>, today: Day, n: nat)
    requires n <= STREAK_WINDOW
    requires forall j :: 0 <= j < n ==> PositiveBack(dc, today, j)
    requires n < STREAK_WINDOW ==> !PositiveBack(dc, today, n)
    ensures n == Streak(dc, today)
  {
  }

  /** The counting loop of calculateStreakDays, with its early exit. */
  method CountStreak(dc: map<Day, int>, today: Day) returns (n: nat)
    ensures n <= STREAK_WINDOW
    ensures forall j :: 0 <= j < n ==> PositiveBack(dc, today, j)
    ensures n < STREAK_WINDOW ==> !PositiveBack(dc, today, n)
  {
    n := 0;
    var i := 0;
    while i < STREAK_WINDOW
      invariant 0 <= i <= STREAK_WINDOW
      invariant n == i
      invariant forall j :: 0 <= j < n ==> PositiveBack(dc, today, j)
    {
      if Get0(dc, today - i) > 0 {
        n := n + 1;
      } else {
        break;
      }
      i := i + 1;
    }
  }

  /** A map in which every positive day of `a` is still positive has at least
      as long a streak, counted from any look-back. */
  lemma {:induction false} StreakFromMonotone(a: map<Day, int>, b: map<Day, int>, today: Day, i: nat)
    requires i <= STREAK_WINDOW
    requires forall d :: Get0(a, d) > 0 ==> Get0(b, d) > 0
    ensures StreakFrom(a, today, i) <= StreakFrom(b, today, i)
    decreases STREAK_WINDOW - i
  {
    if i < STREAK_WINDOW && PositiveBack(a, today, i) {
      StreakFromMonotone(a, b, today, i + 1);
    }
  }

  lemma StreakMonotone(a: map<Day, int>, b: map<Day, int>, today: Day)
    requires forall d :: Get0(a, d) > 0 ==> Get0(b, d) > 0
    ensures Streak(a, today) <= Streak(b, today)
  {
    StreakFromMonotone(a, b, today, 0);
  }

  // -------------------------------------------------------------- counters

  /** `if (!m[k]) m[k] = 0; m[k]++`: a missing counter starts at 0. */
  function Bump<K(!new)>(m: map<K, int>, k: K): (r: map<K, int>)
    ensures r.Keys == m.Keys + {k}
    ensures Get0(r, k) == Get0(m, k) + 1
    ensures forall j :: j != k ==> Get0(r, j) == Get0(m, j)
  {
    m[k := Get0(m, k) + 1]
  }

  /** Completing a task today starts or extends the streak. */
  lemma BumpTodayExtendsStreak(dc: map<Day, int>, today: Day)
    requires forall d :: Get0(dc, d) >= 0
    ensures Streak(Bump(dc, today), today) >= 1
    ensures Streak(Bump(dc, today), today) >= Streak(dc, today)
  {
    var b := Bump(dc, today);
    StreakMonotone(dc, b, today);
    assert PositiveBack(b, today, 0);
  }

  /** mergeStatistics on one counter map: every guest key adds its value to
      the account's (a missing or zero account entry takes the guest value,
      which is the same sum). */
  function MergeCounts<K(!new)>(a: map<K, int>, b: map<K, int>): (r: map<K, int>)
    ensures r.Keys == a.Keys + b.Keys
    ensures forall k :: k in b ==> r[k] == Get0(a, k) + b[k]
    ensures forall k :: k in a && k !in b ==> r[k] == a[k]
  {
    map k | k in a.Keys + b.Keys :: Get0(a, k) + Get0(b, k)
  }

  /** Merging the same guest counters twice counts them twice, so a second
      merge changes the result whenever some guest counter is not zero. */
  lemma MergeCountsTwice<K(!new)>(a: map<K, int>, b: map<K, int>)
    ensures forall k :: k in b ==> MergeCounts(MergeCounts(a, b), b)[k] == Get0(a, k) + 2 * b[k]
    ensures (exists k :: k in b && b[k] != 0) ==> MergeCounts(MergeCounts(a, b), b) != MergeCounts(a, b)
  {
    var m := MergeCounts(a, b);
    forall k | k in b ensures MergeCounts(m, b)[k] == Get0(a, k) + 2 * b[k] {
      assert Get0(m, k) == m[k];
    }
    if k :| k in b && b[k] != 0 {
      assert MergeCounts(m, b)[k] != m[k];
    }
  }

  /** Merging a counter map into itself doubles every counter. */
  lemma MergeSelfDoubles<K(!new)>(a: map<K, int>)
    ensures MergeCounts(a, a).Keys == a.Keys
    ensures forall k :: k in a ==> MergeCounts(a, a)[k] == 2 * a[k]
  {
    forall k | k in a ensures MergeCounts(a, a)[k] == 2 * a[k] {
      assert Get0(a, k) == a[k];
    }
  }

  /** Merging guest day counts that are never negative cannot shorten the
      streak. */
  lemma MergeKeepsStreak(a: map<Day, int>, b: map<Day, int>, today: Day)
    requires forall d :: d in b ==> b[d] >= 0
    ensures Streak(a, today) <= Streak(MergeCounts(a, b), today)
  {
    StreakMonotone(a, MergeCounts(a, b), today);
  }

  // ------------------------------------------------------------ weekly rate

  /** The weekday of a day number as Date.getDay gives it (Sunday is 0);
      day 0, 1970-01-01, was a Thursday. */
  function Weekday(d: Day): (w: int)
    ensures 0 <= w < 7
  {
    (d + 4) % 7
  }

  /** The Sunday that starts the week of `today`. */
  function WeekStart(today: Day): (s: Day)
    ensures s <= today < s + 7
    ensures Weekday(s) == 0
  {
    var q := (today + 4) / 7;
    assert today + 4 == 7 * q + Weekday(today);
    var s := today - Weekday(today);
    assert s + 4 == 7 * q;
    s
  }

  /** The number of completed occurrences in a day's list. */
  function CompletedCount(os: seq<Occurrence>): (n: nat)
    ensures n <= |os|
  {
    if |os| == 0 then 0
    else CompletedCount(os[..|os| - 1]) + (if os[|os| - 1].completed then 1 else 0)
  }

  /** Occurrences and completed occurrences counted over some days. */
  datatype Tally = Tally(total: nat, completed: nat)

  /** Occurrences and completed occurrences over the `k` days from `start`,
      reading a missing day as an empty list. */
  function WeekTotals(ft: map<Day, seq<Occurrence>>, start: Day, k: nat): (r: Tally)
    ensures r.completed <= r.total
    ensures k == 0 ==> r == Tally(0, 0)
  {
    if k == 0 then Tally(0, 0)
    else
      var prev := WeekTotals(ft, start, k - 1);
      var os := DayList(ft, start + (k - 1));
      Tally(prev.total + |os|, prev.completed + CompletedCount(os))
  }

  /** The occurrences listed for day `d`, none when the day is missing. */
  function DayList(ft: map<Day, seq<Occurrence>>, d: Day): seq<Occurrence>
  {
    if d in ft then ft[d] else []
  }

  lemma MulMonotone(d: int, a: int, b: int)
    requires d > 0 && a <= b
    ensures d * a <= d * b
  {
    assert d * b - d * a == d * (b - a);
  }

  /** Integer division rounds down: the quotient is the one whole number
      whose multiples bracket the dividend. */
  lemma DivBracket(n: int, d: int, q: int)
    requires d > 0
    requires d * q <= n < d * (q + 1)
    ensures n / d == q
  {
    var q' := n / d;
    assert d * q' <= n < d * q' + d;
    if q' < q {
      MulMonotone(d, q' + 1, q);
    } else if q < q' {
      MulMonotone(d, q + 1, q');
    }
  }

  lemma RoundedPercentBounds(c: nat, t: nat)
    requires 0 < t
    ensures (200 * c + t) / (2 * t) >= 0
    ensures c <= t ==> (200 * c + t) / (2 * t) <= 100
    ensures c == t ==> (200 * c + t) / (2 * t) == 100
    ensures c == 0 ==> (200 * c + t) / (2 * t) == 0
  {
    var n, d := 200 * c + t, 2 * t;
    var r := n / d;
    assert d * r <= n < d * r + d;
    if c == t {
      DivBracket(n, d, 100);
    }
    if c == 0 {
      DivBracket(n, d, 0);
    }
    if r < 0 {
      MulMonotone(d, r, -1);
    }
    if c <= t && r > 100 {
      MulMonotone(d, 101, r);
    }
  }

  /** Math.round(100 * c / t) for 0 <= c and 0 < t, in integers: the nearest
      whole percentage, halves rounded up. */
  function RoundedPercent(c: nat, t: nat): (r: int)
    requires 0 < t
    ensures 2 * t * r <= 200 * c + t < 2 * t * (r + 1)
    ensures r >= 0
    ensures c <= t ==> r <= 100
    ensures c == t ==> r == 100
    ensures c == 0 ==> r == 0
  {
    RoundedPercentBounds(c, t);
    (200 * c + t) / (2 * t)
  }

  /** calculateWeeklyCompletionRate: the rounded share of completed
      occurrences in the projection over the seven days of the current week,
      or 0 when there are none. */
  function WeeklyRate(ft: map<Day, seq<Occurrence>>, today: Day): (r: int)
    ensures 0 <= r <= 100
    ensures WeekTotals(ft, WeekStart(today), 7).total == 0 ==> r == 0
    ensures WeekTotals(ft, WeekStart(today), 7).completed == WeekTotals(ft, WeekStart(today), 7).total > 0 ==> r == 100
  {
    var w := WeekTotals(ft, WeekStart(today), 7);
    if w.total > 0 then RoundedPercent(w.completed, w.total) else 0
  }

  /** The seven-day loop of calculateWeeklyCompletionRate. */
  method WeekCounts(ft: map<Day, seq<Occurrence>>, start: Day) returns (total: nat, completed: nat)
    ensures Tally(total, completed) == WeekTotals(ft, start, 7)
    ensures completed <= total
  {
    total, completed := 0, 0;
    var i := 0;
    while i < 7
      invariant 0 <= i <= 7
      invariant Tally(total, completed) == WeekTotals(ft, start, i)
    {
      var os := DayList(ft, start + i);
      total := total + |os|;
      completed := completed + CompletedCount(os);
      i := i + 1;
    }
  }

  // ------------------------------------------------------ per-task entries

  /** The distinct days on which task `k` has a record. */
  function DaysOf(rs: seq<Record>, k: Id): (ds: set<Day>)
    ensures forall d :: d in ds <==> exists r :: r in rs && r.taskId == k && r.date == d
  {
    if |rs| == 0 then {}
    else
      var last := rs[|rs| - 1];
      assert forall r :: r in rs <==> r in rs[..|rs| - 1] || r == last;
      DaysOf(rs[..|rs| - 1], k) + (if last.taskId == k then {last.date} else {})
  }

  /** The test `record.taskId === k`. */
  function OwnedBy(k: Id): Record -> bool
  {
    (r: Record) => r.taskId == k
  }

  /** A task has no more distinct completion days than records. */
  lemma {:induction false} DaysAtMostRecords(rs: seq<Record>, k: Id)
    ensures |DaysOf(rs, k)| <= Count(rs, OwnedBy(k))
  {
    if |rs| > 0 {
      var init, last := rs[..|rs| - 1], rs[|rs| - 1];
      DaysAtMostRecords(init, k);
      CountLast(rs, OwnedBy(k));
      var before := DaysOf(init, k);
      var added: set<Day> := if last.taskId == k then {last.date} else {};
      assert DaysOf(rs, k) == before + added;
      assert |added| <= Count(rs, OwnedBy(k)) - Count(init, OwnedBy(k));
      assert |before + added| <= |before| + |added|;
    }
  }

  /** `record.actualValue || 1`. */
  function ValueOr1(v: real): (r: real)
    ensures r != 0.0
    ensures v != 0.0 ==> r == v
  {
    if v == 0.0 then 1.0 else v
  }

  /** The sum of `actualValue || 1` over the records of task `k`. */
  function ValueSum(rs: seq<Record>, k: Id): real
  {
    if |rs| == 0 then 0.0
    else
      var last := rs[|rs| - 1];
      ValueSum(rs[..|rs| - 1], k) + (if last.taskId == k then ValueOr1(last.actualValue) else 0.0)
  }

  lemma DaysOfAppend(rs: seq<Record>, x: Record, k: Id)
    ensures DaysOf(rs + [x], k) == DaysOf(rs, k) + (if x.taskId == k then {x.date} else {})
  {
    assert (rs + [x])[..|rs|] == rs;
  }

  lemma ValueSumAppend(rs: seq<Record>, x: Record, k: Id)
    ensures ValueSum(rs + [x], k) == ValueSum(rs, k) + (if x.taskId == k then ValueOr1(x.actualValue) else 0.0)
  {
    assert (rs + [x])[..|rs|] == rs;
  }

  /** Records of other tasks do not change a task's value sum. */
  lemma {:induction false} ValueSumOnlyOwn(rs: seq<Record>, k: Id)
    ensures ValueSum(rs, k) == ValueSum(Filter(rs, OwnedBy(k)), k)
  {
    if |rs| > 0 {
      var init, last := rs[..|rs| - 1], rs[|rs| - 1];
      ValueSumOnlyOwn(init, k);
      var f := Filter(init, OwnedBy(k));
      assert Filter(rs, OwnedBy(k)) == f + (if OwnedBy(k)(last) then [last] else []);
      assert OwnedBy(k)(last) <==> last.taskId == k;
      if OwnedBy(k)(last) {
        ValueSumAppend(f, last, k);
      } else {
        assert f + [] == f;
      }
    }
  }

  /** When every record counts for at least 1, a task's value sum is at
      least its number of records. */
  lemma {:induction false} ValueSumAtLeastCount(rs: seq<Record>, k: Id)
    requires forall r :: r in rs ==> ValueOr1(r.actualValue) >= 1.0
    ensures ValueSum(rs, k) >= Count(rs, OwnedBy(k)) as real
  {
    if |rs| > 0 {
      var init, last := rs[..|rs| - 1], rs[|rs| - 1];
      assert forall r :: r in init ==> r in rs;
      ValueSumAtLeastCount(init, k);
      CountLast(rs, OwnedBy(k));
      assert last in rs;
    }
  }

  /** Completion values are `parseFloat` numbers: two records of 0.5 sum to
      1 for two records, so the bound above needs values of at least 1. */
  lemma FractionalValuesBelowCount()
    ensures var x := Record("r", "t", DAILY, 9, 0, 0.5, "", SIMPLE, "");
            ValueSum([x, x], "t") == 1.0 && Count([x, x], OwnedBy("t")) == 2
  {
    var x := Record("r", "t", DAILY, 9, 0, 0.5, "", SIMPLE, "");
    assert [x, x][..1] == [x];
    assert [x][..0] == [];
    CountLast([x, x], OwnedBy("t"));
    CountLast([x], OwnedBy("t"));
    assert Count([x], OwnedBy("t")) == 1;
    assert ValueSum([x], "t") == 0.5;
    assert ValueSum([x, x], "t") == 1.0;
  }

  /** The entry recalculateDailyTaskStats writes for task `k`. */
  function RebuiltEntry(e: TaskStat, rs: seq<Record>, k: Id): TaskStat
  {
    e.(completedDays := |DaysOf(rs, k)|, totalValue := ValueSum(rs, k))
  }

  /** recalculateDailyTaskStats: every existing entry is recomputed from the
      records; no entry is added or removed. */
  function Rebuild(stats: map<Id, TaskStat>, rs: seq<Record>): (r: map<Id, TaskStat>)
    ensures r.Keys == stats.Keys
    ensures forall k :: k in r ==>
              r[k].taskName == stats[k].taskName && r[k].dimension == stats[k].dimension &&
              r[k].unit == stats[k].unit
  {
    map k | k in stats :: RebuiltEntry(stats[k], rs, k)
  }

  /** Rebuilding twice from the same records is rebuilding once, and the
      result depends only on the records of the tasks that have an entry. */
  lemma RebuildIdempotent(stats: map<Id, TaskStat>, rs: seq<Record>)
    ensures Rebuild(Rebuild(stats, rs), rs) == Rebuild(stats, rs)
  {
  }

  /** Records of tasks without an entry are ignored by the rebuild. */
  lemma RebuildIgnoresUnknown(stats: map<Id, TaskStat>, rs: seq<Record>, x: Record)
    requires x.taskId !in stats
    ensures Rebuild(stats, rs + [x]) == Rebuild(stats, rs)
  {
    var a, b := Rebuild(stats, rs + [x]), Rebuild(stats, rs);
    forall k | k in stats ensures a[k] == b[k] {
      DaysOfAppend(rs, x, k);
      ValueSumAppend(rs, x, k);
      assert a[k] == RebuiltEntry(stats[k], rs + [x], k);
    }
    assert a.Keys == b.Keys;
  }

  /** The entry initializeDailyTaskStats and updateDailyTaskStats create for a
      task that has none. */
  function FreshEntry(t: Task): TaskStat
  {
    TaskStat(t.name, 0, 0.0, t.dimension, t.unit)
  }

  /** initializeDailyTaskStats before its rebuild: every daily task without an
      entry gets a zero entry (the first task of a repeated id wins). */
  function Seed(stats: map<Id, TaskStat>, daily: seq<Task>): (r: map<Id, TaskStat>)
    ensures r.Keys == stats.Keys + set t | t in daily :: t.id
    ensures forall k :: k in stats ==> r[k] == stats[k]
    ensures forall k :: k in r && k !in stats ==> r[k].completedDays == 0 && r[k].totalValue == 0.0
  {
    if |daily| == 0 then stats
    else
      var init, t := daily[..|daily| - 1], daily[|daily| - 1];
      assert forall x :: x in daily <==> x in init || x == t;
      var s := Seed(stats, init);
      if t.id in s then s else s[t.id := FreshEntry(t)]
  }

  /** Whether a record is of task `k` and dated `d`. */
  function OnDay(k: Id, d: Day): Record -> bool
  {
    (r: Record) => r.taskId == k && r.date == d
  }

  /** The records of task `k` dated `d`. */
  function CountOn(rs: seq<Record>, k: Id, d: Day): nat
  {
    Count(rs, OnDay(k, d))
  }

  /** An entry credited with one more completion of value `v`, counting a
      new completed day when `newDay` holds. */
  function Credit(e: TaskStat, v: real, newDay: bool): (r: TaskStat)
    ensures r.totalValue - e.totalValue == v
    ensures r.completedDays - e.completedDays == (if newDay then 1 else 0)
    ensures r.taskName == e.taskName && r.dimension == e.dimension && r.unit == e.unit
  {
    e.(completedDays := e.completedDays + (if newDay then 1 else 0), totalValue := e.totalValue + v)
  }

  /** updateDailyTaskStats, run after the new record has been appended to
      `rs`: nothing unless `k` is a daily task; otherwise its entry (created if
      missing) gains `v` and, when exactly one record of it is dated today, one
      completed day. No other entry changes. */
  function UpdateTaskStat(stats: map<Id, TaskStat>, daily: seq<Task>, rs: seq<Record>, k: Id, v: real, today: Day)
    : (r: map<Id, TaskStat>)
    ensures (forall t :: t in daily ==> t.id != k) ==> r == stats
    ensures forall j :: j != k ==> (j in r <==> j in stats) && (j in stats ==> r[j] == stats[j])
    ensures (exists t :: t in daily && t.id == k) ==>
              exists t :: t in daily && t.id == k &&
                r == stats[k := Credit(if k in stats then stats[k] else FreshEntry(t), v, CountOn(rs, k, today) == 1)]
  {
    match FindById(daily, TaskIdOf, k)
    case None => stats
    case Some(t) =>
      var e := if k in stats then stats[k] else FreshEntry(t);
      stats[k := Credit(e, v, CountOn(rs, k, today) == 1)]
  }

  lemma {:induction false} CountAppendOne<T(!new)>(s: seq<T>, x: T, p: T -> bool)
    ensures Count(s + [x], p) == Count(s, p) + (if p(x) then 1 else 0)
  {
    FilterAppend(s, [x], p);
    assert Filter([x], p) == Filter([], p) + (if p(x) then [x] else []);
  }

  /** The count of a non-empty sequence is that of its prefix plus its last
      element's share. */
  lemma CountLast<T(!new)>(s: seq<T>, p: T -> bool)
    requires |s| > 0
    ensures Count(s, p) == Count(s[..|s| - 1], p) + (if p(s[|s| - 1]) then 1 else 0)
  {
    CountAppendOne(s[..|s| - 1], s[|s| - 1], p);
    assert s == s[..|s| - 1] + [s[|s| - 1]];
  }

  /** One more record dated today is the first of the day exactly when the
      day was not yet among the task's completion days. */
  lemma FirstOfTheDay(rs: seq<Record>, x: Record)
    ensures CountOn(rs + [x], x.taskId, x.date) == 1 <==> x.date !in DaysOf(rs, x.taskId)
  {
    var k, d := x.taskId, x.date;
    var p := OnDay(k, d);
    CountAppendOne(rs, x, p);
    if d in DaysOf(rs, k) {
      var r :| r in rs && r.taskId == k && r.date == d;
      assert p(r);
    }
  }

  /** Every entry is what the rebuild would make of it: the entries agree
      with the records. */
  ghost predicate Consistent(stats: map<Id, TaskStat>, rs: seq<Record>)
  {
    forall j :: j in stats ==> stats[j] == RebuiltEntry(stats[j], rs, j)
  }

  lemma ConsistentIsFixpoint(stats: map<Id, TaskStat>, rs: seq<Record>)
    ensures Consistent(stats, rs) <==> stats == Rebuild(stats, rs)
    ensures Consistent(Rebuild(stats, rs), rs)
  {
  }

  /** One more record adds one completion day exactly when it is its task's
      first record on its day. */
  lemma DayCountAppend(rs: seq<Record>, x: Record, j: Id)
    ensures |DaysOf(rs + [x], j)| == |DaysOf(rs, j)| + (if j == x.taskId && x.date !in DaysOf(rs, j) then 1 else 0)
  {
    DaysOfAppend(rs, x, j);
    var ds := DaysOf(rs, j);
    if j == x.taskId && x.date !in ds {
      assert |ds + {x.date}| == |ds| + 1;
    } else if j == x.taskId {
      assert ds + {x.date} == ds;
    }
  }

  /** One entry rebuilt after one more record: the record's own task is
      credited with its value and, for a new day, one day; any other entry is
      unchanged. */
  lemma EntryAfterAppend(e: TaskStat, rs: seq<Record>, x: Record, j: Id)
    requires e == RebuiltEntry(e, rs, j) && x.actualValue != 0.0
    ensures RebuiltEntry(e, rs + [x], j) ==
              if j == x.taskId then Credit(e, x.actualValue, x.date !in DaysOf(rs, j)) else e
  {
    DayCountAppend(rs, x, j);
    ValueSumAppend(rs, x, j);
  }

  /** A map that agrees with `m` everywhere except at `k`, where it holds
      `e`, is `m` updated at `k`. */
  lemma UpdatedAt<K, V>(a: map<K, V>, m: map<K, V>, k: K, e: V)
    requires a.Keys == m.Keys && k in m
    requires a[k] == e
    requires forall j :: j in m && j != k ==> a[j] == m[j]
    ensures a == m[k := e]
  {
  }

  /** The rebuild after one more record of a task that has an entry, from
      entries that were consistent with the records: only that entry changes. */
  lemma RebuildAppendOwn(stats: map<Id, TaskStat>, rs: seq<Record>, x: Record)
    requires Consistent(stats, rs)
    requires x.taskId in stats && x.actualValue != 0.0
    ensures Rebuild(stats, rs + [x]) == stats[x.taskId := Credit(stats[x.taskId], x.actualValue, x.date !in DaysOf(rs, x.taskId))]
  {
    var k := x.taskId;
    RebuildOthersKept(stats, rs, x);
    RebuildEntryAppend(stats, rs, x, k);
    UpdatedAt(Rebuild(stats, rs + [x]), stats, k, Credit(stats[k], x.actualValue, x.date !in DaysOf(rs, k)));
  }

  /** The entries of other tasks survive the rebuild after one more record. */
  lemma RebuildOthersKept(stats: map<Id, TaskStat>, rs: seq<Record>, x: Record)
    requires Consistent(stats, rs) && x.actualValue != 0.0
    ensures forall j :: j in stats && j != x.taskId ==> Rebuild(stats, rs + [x])[j] == stats[j]
  {
    forall j | j in stats && j != x.taskId ensures Rebuild(stats, rs + [x])[j] == stats[j] {
      RebuildEntryAppend(stats, rs, x, j);
    }
  }

  /** One entry of the rebuild after one more record. */
  lemma RebuildEntryAppend(stats: map<Id, TaskStat>, rs: seq<Record>, x: Record, j: Id)
    requires Consistent(stats, rs)
    requires j in stats && x.actualValue != 0.0
    ensures Rebuild(stats, rs + [x])[j] ==
              if j == x.taskId then Credit(stats[j], x.actualValue, x.date !in DaysOf(rs, j)) else stats[j]
  {
    EntryAfterAppend(stats[j], rs, x, j);
  }

  /** The incremental update agrees with the full rebuild when the entries
      were consistent with the records, the task is a daily task with an
      entry, and the new record is dated today and carries a nonzero value. */
  lemma IncrementalMatchesRebuild(stats: map<Id, TaskStat>, daily: seq<Task>, rs: seq<Record>, x: Record, today: Day)
    requires Consistent(stats, rs)
    requires x.taskId in stats && x.date == today && x.actualValue != 0.0
    requires exists t :: t in daily && t.id == x.taskId
    ensures UpdateTaskStat(stats, daily, rs + [x], x.taskId, x.actualValue, today) == Rebuild(stats, rs + [x])
  {
    FirstOfTheDay(rs, x);
    RebuildAppendOwn(stats, rs, x);
  }

  /** A record dated before today (completing a past occurrence) is credited
      to the day counter of today by the incremental update, while the
      rebuild counts the record's own day. */
  lemma IncrementalUsesToday()
    ensures var t := Task("t", "", DAILY, SIMPLE, 1, "", 0, None, None, None);
            var stats := map["t" := FreshEntry(t)];
            var x := Record("r", "t", DAILY, 9, 0, 1.0, "", SIMPLE, "");
            UpdateTaskStat(stats, [t], [x], "t", 1.0, 10)["t"].completedDays == 0 &&
            Rebuild(stats, [x])["t"].completedDays == 1
  {
    var t := Task("t", "", DAILY, SIMPLE, 1, "", 0, None, None, None);
    var x := Record("r", "t", DAILY, 9, 0, 1.0, "", SIMPLE, "");
    assert [t][0] == t;
    assert CountOn([x], "t", 10) == 0;
    assert DaysOf([x], "t") == {9} by {
      assert [x][..0] == [];
    }
  }

  // ---------------------------------------------------------------- paging

  /** Per-task cards shown on one page. */
  const PER_PAGE: int := 4

  /** Math.ceil(n / 4) for n >= 0. */
  function PageCount(n: nat): (p: nat)
    ensures (p - 1) * PER_PAGE < n <= p * PER_PAGE || (n == 0 && p == 0)
  {
    (n + PER_PAGE - 1) / PER_PAGE
  }

  /** slideDailyStats: move by `dir` pages and wrap around at either end.
      With no cards there are no pages, and stepping below page 0 lands on
      page -1. */
  function SlidePage(page: int, dir: int, n: nat): (r: int)
    ensures n > 0 ==> 0 <= r < PageCount(n)
    ensures 0 <= page + dir < PageCount(n) ==> r == page + dir
    ensures page + dir < 0 ==> r == PageCount(n) - 1
    ensures page + dir >= PageCount(n) && page + dir >= 0 ==> r == 0
  {
    var p := page + dir;
    if p < 0 then PageCount(n) - 1
    else if p >= PageCount(n) then 0
    else p
  }

  /** A step forward is undone by a step back, including across the wrap. */
  lemma SlideBackAndForth(page: int, n: nat)
    requires 0 <= page < PageCount(n)
    ensures SlidePage(SlidePage(page, 1, n), -1, n) == page
    ensures SlidePage(SlidePage(page, -1, n), 1, n) == page
  {
  }
}
