/** The task store's pure operations: routing a new task, building a
    completion record, the id-keyed union used by the guest merge, the
    self-healing reclassification, and the removals behind deleteTask,
    deleteCompletionRecord and toggleTaskCompletion
    (script.js, class TaskManager). */
module TaskStore {
  import opened Domain
  import opened Seqs

  function IsDaily(t: Task): bool { t.kind == DAILY }
  function IsSingle(t: Task): bool { t.kind == SINGLE }
  function IsKnownKind(t: Task): bool { IsDaily(t) || IsSingle(t) }

  function TaskIdOf(t: Task): Id { t.id }
  function RecordIdOf(r: Record): Id { r.id }

  /** What the task form hands to addTask. */
  datatype TaskInput = TaskInput(
    name: string,
    kind: string,
    dimension: string,
    targetValue: Option<int>,
    startDate: Option<Day>,
    endDate: Option<Day>,
    date: Option<Day>)

  /** `taskData.targetValue || 1`: a missing or zero target becomes 1. */
  function TargetOrDefault(v: Option<int>): (r: int)
    ensures r != 0
    ensures v.Some? && v.value != 0 ==> r == v.value
    ensures v.None? || v.value == 0 ==> r == 1
  {
    if v.Some? && v.value != 0 then v.value else 1
  }

  /** The task addTask builds from the form data, a fresh id, the creation day
      and the unit label of its dimension. */
  function NewTask(data: TaskInput, id: Id, createdDay: Day, unit: string): Task
  {
    Task(id, data.name, data.kind, data.dimension, TargetOrDefault(data.targetValue),
         unit, createdDay, data.startDate, data.endDate, data.date)
  }

  // ---------------------------------------------------------------- lookup

  /** Array.find by id: the first item carrying the id. */
  function FindById<T(==,!new)>(s: seq<T>, id: T -> Id, k: Id): (r: Option<T>)
    ensures r.None? <==> forall x :: x in s ==> id(x) != k
    ensures r.Some? ==> r.value in s && id(r.value) == k
    ensures r.Some? ==> exists i :: 0 <= i < |s| && s[i] == r.value && forall j :: 0 <= j < i ==> id(s[j]) != k
  {
    if |s| == 0 then None
    else if id(s[0]) == k then Some(s[0])
    else
      var r := FindById(s[1..], id, k);
      assert forall x :: x in s ==> x == s[0] || x in s[1..];
      if r.Some? then
        var i :| 0 <= i < |s[1..]| && s[1..][i] == r.value && forall j :: 0 <= j < i ==> id(s[1..][j]) != k;
        assert s[i + 1] == r.value && forall j :: 0 <= j < i + 1 ==> id(s[j]) != k;
        r
      else r
  }

  /** The task completeTask looks up: first among the daily tasks, then among
      the single tasks. */
  function FindTask(daily: seq<Task>, single: seq<Task>, k: Id): (r: Option<Task>)
    ensures r.None? <==> (forall t :: t in daily ==> t.id != k) && (forall t :: t in single ==> t.id != k)
    ensures r.Some? ==> r.value.id == k && (r.value in daily || r.value in single)
    ensures (exists t :: t in daily && t.id == k) ==> r.Some? && r.value in daily
  {
    var d := FindById(daily, TaskIdOf, k);
    if d.Some? then d else FindById(single, TaskIdOf, k)
  }

  /** Array.findIndex by record id, -1 when absent. */
  function IndexOfRecord(rs: seq<Record>, rid: Id): (i: int)
    ensures -1 <= i < |rs|
    ensures i == -1 <==> forall r :: r in rs ==> r.id != rid
    ensures i >= 0 ==> rs[i].id == rid && forall j :: 0 <= j < i ==> rs[j].id != rid
  {
    if |rs| == 0 then -1
    else if rs[0].id == rid then 0
    else
      var i := IndexOfRecord(rs[1..], rid);
      assert forall r :: r in rs ==> r == rs[0] || r in rs[1..];
      if i == -1 then -1 else i + 1
  }

  // ---------------------------------------------------- completion records

  /** `customValue || task?.targetValue || 1`. */
  function ActualValue(custom: Option<real>, task: Option<Task>): (v: real)
    ensures v != 0.0
    ensures custom.Some? && custom.value != 0.0 ==> v == custom.value
    ensures (custom.None? || custom.value == 0.0) && task.Some? && task.value.targetValue != 0 ==> v == task.value.targetValue as real
    ensures (custom.None? || custom.value == 0.0) && (task.None? || task.value.targetValue == 0) ==> v == 1.0
  {
    if custom.Some? && custom.value != 0.0 then custom.value
    else if task.Some? && task.value.targetValue != 0 then task.value.targetValue as real
    else 1.0
  }

  /** The record completeTask appends; a missing task leaves an empty name and
      the 'simple' dimension. */
  function NewRecord(id: Id, taskId: Id, taskType: string, date: Day, now: int,
                     custom: Option<real>, task: Option<Task>, note: string): (r: Record)
    ensures r.id == id && r.taskId == taskId && r.taskType == taskType && r.date == date
    ensures r.completedAt == now && r.note == note
    ensures r.actualValue == ActualValue(custom, task) && r.actualValue != 0.0
    ensures task.Some? ==> r.taskName == task.value.name
    ensures task.Some? && task.value.dimension != "" ==> r.dimension == task.value.dimension
    ensures task.None? ==> r.taskName == "" && r.dimension == SIMPLE
  {
    Record(id, taskId, taskType, date, now, ActualValue(custom, task),
           if task.Some? then task.value.name else "",
           if task.Some? && task.value.dimension != "" then task.value.dimension else SIMPLE,
           note)
  }

  // ------------------------------------------------------------- removals

  /** deleteTask's filter on a task list. */
  function WithoutTask(ts: seq<Task>, k: Id): seq<Task>
  {
    Filter(ts, (t: Task) => t.id != k)
  }

  /** deleteTask's cascade on the completion records. */
  function WithoutRecordsOf(rs: seq<Record>, k: Id): seq<Record>
  {
    Filter(rs, (r: Record) => r.taskId != k)
  }

  /** Deleting by id removes every copy of the task's tasks and keeps every
      other task with its multiplicity. */
  lemma WithoutTaskCount(ts: seq<Task>, k: Id, t: Task)
    ensures multiset(WithoutTask(ts, k))[t] == if t.id != k then multiset(ts)[t] else 0
  {
    FilterCount(ts, (t: Task) => t.id != k, t);
  }

  /** The cascade removes every record of the task and keeps every other
      record with its multiplicity. */
  lemma WithoutRecordsCount(rs: seq<Record>, k: Id, x: Record)
    ensures multiset(WithoutRecordsOf(rs, k))[x] == if x.taskId != k then multiset(rs)[x] else 0
  {
    FilterCount(rs, (r: Record) => r.taskId != k, x);
  }

  /** toggleTaskCompletion's filter: every record of (task, day) goes. */
  function WithoutRecordsOn(rs: seq<Record>, k: Id, d: Day): seq<Record>
  {
    Filter(rs, (r: Record) => !(r.taskId == k && r.date == d))
  }

  /** deleteCompletionRecord: splice out the first record with the id; every
      other record keeps its relative order. */
  function WithoutFirstRecord(rs: seq<Record>, rid: Id): (r: seq<Record>)
    ensures var i := IndexOfRecord(rs, rid);
            if i == -1 then r == rs
            else
              |r| == |rs| - 1 &&
              multiset(r) + multiset{rs[i]} == multiset(rs) &&
              forall j :: 0 <= j < |r| ==> r[j] == (if j < i then rs[j] else rs[j + 1])
  {
    var i := IndexOfRecord(rs, rid);
    if i == -1 then rs
    else
      var r := rs[..i] + rs[i + 1..];
      SpliceOut(rs, i, r);
      r
  }

  // --------------------------------------------------------- merge by id

  predicate HasId<T>(s: seq<T>, id: T -> Id, k: Id)
  {
    exists i :: 0 <= i < |s| && id(s[i]) == k
  }

  ghost predicate DistinctIds<T>(s: seq<T>, id: T -> Id)
  {
    forall i, j :: 0 <= i < j < |s| ==> id(s[i]) != id(s[j])
  }

  /** The guest merge's loop: every guest item, in order, is pushed onto the
      target unless an item with its id is already there, counting the items
      pushed so far. */
  function MergeById<T(==,!new)>(target: seq<T>, guest: seq<T>, id: T -> Id): (r: seq<T>)
    ensures target <= r
    ensures forall i :: |target| <= i < |r| ==> r[i] in guest && !HasId(target, id, id(r[i]))
    ensures forall i, j :: |target| <= i < j < |r| ==> id(r[i]) != id(r[j])
    ensures forall g :: g in guest ==> HasId(r, id, id(g))
    ensures forall i :: 0 <= i < |r| ==> r[i] in target || r[i] in guest
  {
    if |guest| == 0 then target
    else
      var g := guest[|guest| - 1];
      var m := MergeById(target, guest[..|guest| - 1], id);
      assert forall x :: x in guest ==> x in guest[..|guest| - 1] || x == g;
      if HasId(m, id, id(g)) then m
      else
        var r := m + [g];
        assert forall k :: HasId(m, id, k) ==> HasId(r, id, k) by {
          forall k | HasId(m, id, k) ensures HasId(r, id, k) {
            var i :| 0 <= i < |m| && id(m[i]) == k;
            assert r[i] == m[i];
          }
        }
        assert id(r[|m|]) == id(g);
        r
  }

  /** The items the merge appends come in the guest list's order. */
  lemma {:induction false} MergeKeepsGuestOrder<T(!new)>(target: seq<T>, guest: seq<T>, id: T -> Id)
    ensures OrderedIn(MergeById(target, guest, id), |target|, guest)
  {
    if |guest| > 0 {
      var n := |guest| - 1;
      var g, front := guest[n], guest[..n];
      var m := MergeById(target, front, id);
      MergeKeepsGuestOrder(target, front, id);
      if HasId(m, id, id(g)) {
        assert MergeById(target, guest, id) == m;
        OrderFromPrefix(guest, n, m, |target|);
      } else {
        assert MergeById(target, guest, id) == m + [g];
        assert g !in front;
        OrderAppendLast(guest, m, |target|);
      }
    }
  }

  /** A guest list whose every id is already present adds nothing. */
  lemma {:induction false} MergeAllPresent<T(!new)>(target: seq<T>, guest: seq<T>, id: T -> Id)
    requires forall g :: g in guest ==> HasId(target, id, id(g))
    ensures MergeById(target, guest, id) == target
  {
    if |guest| > 0 {
      assert forall g :: g in guest[..|guest| - 1] ==> g in guest;
      MergeAllPresent(target, guest[..|guest| - 1], id);
      assert guest[|guest| - 1] in guest;
    }
  }

  /** Merging the same guest list a second time changes nothing. */
  lemma MergeIdempotent<T(!new)>(target: seq<T>, guest: seq<T>, id: T -> Id)
    ensures MergeById(MergeById(target, guest, id), guest, id) == MergeById(target, guest, id)
  {
    MergeAllPresent(MergeById(target, guest, id), guest, id);
  }

  /** A target without duplicate ids stays without duplicate ids. */
  lemma MergeKeepsIdsDistinct<T(!new)>(target: seq<T>, guest: seq<T>, id: T -> Id)
    requires DistinctIds(target, id)
    ensures DistinctIds(MergeById(target, guest, id), id)
  {
    var r := MergeById(target, guest, id);
    forall i, j | 0 <= i < j < |r| ensures id(r[i]) != id(r[j]) {
      if i < |target| && |target| <= j {
        assert !HasId(target, id, id(r[j]));
        assert r[i] == target[i];
      }
    }
  }

  // ------------------------------------------------------ reclassification

  ghost predicate Separated(daily: seq<Task>, single: seq<Task>)
  {
    (forall t :: t in daily ==> !IsSingle(t)) && (forall t :: t in single ==> !IsDaily(t))
  }

  /** cleanupTaskClassification: single tasks found among the daily tasks are
      appended to the single list and the daily list keeps only 'daily' tasks;
      then daily tasks found among the single tasks are appended to the daily
      list and the single list keeps only 'single' tasks. A list is filtered
      only when something had to move out of it. */
  function Reclassify(daily: seq<Task>, single: seq<Task>): (r: (seq<Task>, seq<Task>))
    ensures Separated(r.0, r.1)
    ensures (exists t :: t in daily && IsSingle(t)) ==> forall t :: t in r.0 ==> IsDaily(t)
    ensures (exists t :: t in single && IsDaily(t)) ==> forall t :: t in r.1 ==> IsSingle(t)
    ensures (forall t :: t in daily ==> !IsSingle(t)) ==> daily <= r.0
    ensures (forall t :: t in single ==> !IsDaily(t)) ==> single <= r.1
  {
    var wrongDaily := Filter(daily, IsSingle);
    var d1 := if |wrongDaily| > 0 then Filter(daily, IsDaily) else daily;
    var s1 := if |wrongDaily| > 0 then single + wrongDaily else single;
    var wrongSingle := Filter(s1, IsDaily);
    assert |wrongDaily| == 0 ==> wrongDaily == [];
    assert |wrongSingle| == 0 ==> wrongSingle == [];
    assert forall t :: t in single ==> t in s1;
    assert (forall t :: t in single ==> !IsDaily(t)) ==> Count(s1, IsDaily) == 0;
    assert (forall t :: t in daily ==> !IsSingle(t)) ==> Count(daily, IsSingle) == 0;
    if |wrongSingle| > 0 then (d1 + wrongSingle, Filter(s1, IsSingle)) else (d1, s1)
  }

  /** A pair of lists is left as it is exactly when nothing is misfiled; so a
      second reclassification never changes anything. */
  lemma ReclassifyFixpoint(daily: seq<Task>, single: seq<Task>)
    ensures Reclassify(daily, single) == (daily, single) <==> Separated(daily, single)
    ensures Reclassify(Reclassify(daily, single).0, Reclassify(daily, single).1) == Reclassify(daily, single)
  {
    var r := Reclassify(daily, single);
    if Separated(daily, single) {
      assert Count(daily, IsSingle) == 0 && Count(single, IsDaily) == 0;
    }
    assert Count(r.0, IsSingle) == 0 && Count(r.1, IsDaily) == 0;
  }

  /** No 'daily' or 'single' task is lost or duplicated by the
      reclassification, and no task of any other kind is duplicated (such a
      task is dropped from a list that gets filtered). */
  lemma ReclassifyConserves(daily: seq<Task>, single: seq<Task>, x: Task)
    ensures var r := Reclassify(daily, single);
            if IsKnownKind(x) then multiset(r.0 + r.1)[x] == multiset(daily + single)[x]
            else multiset(r.0 + r.1)[x] <= multiset(daily + single)[x]
  {
    var wrongDaily := Filter(daily, IsSingle);
    var s1 := if |wrongDaily| > 0 then single + wrongDaily else single;
    FilterCount(daily, IsSingle, x);
    FilterCount(daily, IsDaily, x);
    FilterCount(s1, IsDaily, x);
    FilterCount(s1, IsSingle, x);
  }
}
