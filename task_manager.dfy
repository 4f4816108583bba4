/**
 * `TaskManager`: the in-memory task list the views observe. Adding persists a new record
 * through the record store, deleting removes the records with the task's id, and toggling
 * and updating change the in-memory list only.
 */
module TaskManagement {
  import opened Options
  import opened Sequences
  import opened TaskModel
  import opened DataManager
  import Categories
  import Priorities

  /** `firstIndex(where: { $0.id == id })`. */
  function FirstIndexWithId(s: seq<Task>, id: Uuid): (r: Option<nat>)
    ensures r.Some? ==> r.value < |s| && s[r.value].id == id
    ensures r.Some? ==> forall j :: 0 <= j < r.value ==> s[j].id != id
    ensures r.None? <==> forall t :: t in s ==> t.id != id
  {
    if s == [] then None
    else if s[0].id == id then Some(0)
    else
      match FirstIndexWithId(s[1..], id)
      case None => None
      case Some(k) => Some(k + 1)
  }

  predicate SortedByDueDate(s: seq<Task>) {
    forall i, j :: 0 <= i < j < |s| ==> s[i].dueDate <= s[j].dueDate
  }

  /** `t` placed after every task due no later than it. */
  function InsertByDueDate(s: seq<Task>, t: Task): (r: seq<Task>)
    requires SortedByDueDate(s)
    ensures SortedByDueDate(r)
    ensures multiset(r) == multiset(s) + multiset{t}
    ensures forall x :: x in r ==> x in s || x == t
  {
    if s == [] then [t]
    else if t.dueDate < s[0].dueDate then [t] + s
    else
      var rest := InsertByDueDate(s[1..], t);
      assert s == [s[0]] + s[1..];
      assert forall x :: x in rest ==> s[0].dueDate <= x.dueDate;
      [s[0]] + rest
  }

  /** An insertion sort standing for the library's `sort { $0.dueDate < $1.dueDate }`. */
  function SortByDueDate(s: seq<Task>): (r: seq<Task>)
    ensures SortedByDueDate(r)
    ensures multiset(r) == multiset(s)
  {
    if s == [] then []
    else
      assert s == s[..|s| - 1] + [s[|s| - 1]];
      InsertByDueDate(SortByDueDate(s[..|s| - 1]), s[|s| - 1])
  }

  /** The list after `toggleTaskCompletion`: the first task with `id` has its flag flipped. */
  function Toggled(s: seq<Task>, id: Uuid): (r: seq<Task>)
    ensures |r| == |s|
    ensures forall i :: 0 <= i < |s| ==> r[i].id == s[i].id
    ensures forall i :: 0 <= i < |s| && FirstIndexWithId(s, id) != Some(i) ==> r[i] == s[i]
    ensures FirstIndexWithId(s, id).Some? ==>
      var k := FirstIndexWithId(s, id).value;
      r[k].isCompleted == !s[k].isCompleted && r[k] == s[k].(isCompleted := r[k].isCompleted)
  {
    match FirstIndexWithId(s, id)
    case None => s
    case Some(k) => s[k := s[k].(isCompleted := !s[k].isCompleted)]
  }

  /** The list after `updateTask(t)`: the first task with `t.id` is replaced by `t`. */
  function Replaced(s: seq<Task>, t: Task): (r: seq<Task>)
    ensures |r| == |s|
    ensures forall i :: 0 <= i < |s| && FirstIndexWithId(s, t.id) != Some(i) ==> r[i] == s[i]
    ensures FirstIndexWithId(s, t.id).Some? ==> r[FirstIndexWithId(s, t.id).value] == t
    ensures t in r <==> t in s || FirstIndexWithId(s, t.id).Some?
  {
    match FirstIndexWithId(s, t.id)
    case None => s
    case Some(k) => s[k := t]
  }

  /** `removeAll { $0.id == id }`. */
  function RemoveAllWithId(s: seq<Task>, id: Uuid): (r: seq<Task>)
    ensures |r| <= |s|
    ensures forall t :: t in r <==> t in s && t.id != id
  {
    Filter(s, (t: Task) => t.id != id)
  }

  /** The record `addTask` asks the store to save: a fresh id, and no description. */
  function SavedRecord(t: Task, freshId: Uuid): (r: Record)
    ensures r.id == freshId
    ensures Decode(r) == Some(t.(id := freshId, description := None))
  {
    SavedFieldsDecode(t.title, t.dueDate, freshId, t.category, t.priority, t.isCompleted);
    Record(t.title, t.dueDate, freshId, Categories.Id(t.category), Priorities.RawValue(t.priority),
           t.isCompleted)
  }

  class TaskManager {
    var tasks: seq<Task>
    /** `DataManager.shared`. */
    const db: RecordStore

    /** `init`: loads the list from the store once. */
    constructor (db: RecordStore, fetchFails: bool)
      ensures this.db == db && db.records == old(db.records)
      ensures tasks == db.FetchTask(fetchFails)
    {
      this.db := db;
      tasks := [];
      new;
      FetchTasks(fetchFails);
    }

    /** `addTask`: append, sort by due date, then save a record under a fresh id. */
    method AddTask(task: Task, freshId: Uuid)
      requires db.Unused(freshId)
      modifies this, db
      ensures SortedByDueDate(tasks)
      ensures multiset(tasks) == multiset(old(tasks)) + multiset{task}
      ensures db.records == old(db.records) + [SavedRecord(task, freshId)]
    {
      tasks := tasks + [task];
      tasks := SortByDueDate(tasks);
      db.SaveTask(freshId, task.title, task.dueDate, Categories.Id(task.category),
                  Priorities.RawValue(task.priority), task.isCompleted);
    }

    /** `addTask` as evidently intended: the record is saved under the task's own id. */
    method AddTaskUnderOwnId(task: Task)
      requires db.Unused(task.id)
      modifies this, db
      ensures SortedByDueDate(tasks)
      ensures multiset(tasks) == multiset(old(tasks)) + multiset{task}
      ensures db.records == old(db.records) + [SavedRecord(task, task.id)]
    {
      tasks := tasks + [task];
      tasks := SortByDueDate(tasks);
      db.SaveTask(task.id, task.title, task.dueDate, Categories.Id(task.category),
                  Priorities.RawValue(task.priority), task.isCompleted);
    }

    /** `toggleTaskCompletion`: in memory only. */
    method ToggleTaskCompletion(task: Task)
      modifies this
      ensures tasks == Toggled(old(tasks), task.id)
      ensures db.records == old(db.records)
    {
      match FirstIndexWithId(tasks, task.id)
      case Some(index) =>
        tasks := tasks[index := tasks[index].(isCompleted := !tasks[index].isCompleted)];
      case None =>
    }

    /** `deleteTask`: removes every task with the id, and asks the store to do the same. */
    method DeleteTask(task: Task, fetchFails: bool)
      modifies this, db
      ensures tasks == RemoveAllWithId(old(tasks), task.id)
      ensures db.records == AfterDelete(old(db.records), task.id, fetchFails)
    {
      tasks := RemoveAllWithId(tasks, task.id);
      db.DeleteTask(task.id, fetchFails);
    }

    /** `updateTask`: in memory only, without sorting again. */
    method UpdateTask(task: Task)
      modifies this
      ensures tasks == Replaced(old(tasks), task)
      ensures db.records == old(db.records)
    {
      match FirstIndexWithId(tasks, task.id)
      case Some(index) =>
        tasks := tasks[index := task];
      case None =>
    }

    /** `fetchTasks`: replaces the list with what the store decodes. */
    method FetchTasks(fetchFails: bool)
      modifies this
      ensures tasks == db.FetchTask(fetchFails)
    {
      tasks := db.FetchTask(fetchFails);
    }
  }

  /** Two tasks lists with the same ids, position by position, find the same first index. */
  lemma {:induction false} FirstIndexDependsOnIdsOnly(s: seq<Task>, s': seq<Task>, id: Uuid)
    requires |s| == |s'| && forall i :: 0 <= i < |s| ==> s[i].id == s'[i].id
    ensures FirstIndexWithId(s, id) == FirstIndexWithId(s', id)
  {
    if s != [] {
      FirstIndexDependsOnIdsOnly(s[1..], s'[1..], id);
    }
  }

  /** Toggling the same task twice restores the list. */
  lemma ToggleTwiceRestores(s: seq<Task>, id: Uuid)
    ensures Toggled(Toggled(s, id), id) == s
  {
    FirstIndexDependsOnIdsOnly(s, Toggled(s, id), id);
  }

  /** Toggling, updating or deleting a task whose id is not in the list leaves the list as it is. */
  lemma AbsentIdIsNoop(s: seq<Task>, t: Task)
    requires forall u :: u in s ==> u.id != t.id
    ensures Toggled(s, t.id) == s && Replaced(s, t) == s && RemoveAllWithId(s, t.id) == s
  {
    FilterKeepsAll(s, (u: Task) => u.id != t.id);
  }

  /** Deleting keeps the order of the remaining tasks and removes every task with the id. */
  lemma DeleteKeepsOrder(s: seq<Task>, id: Uuid)
    ensures SubsequenceOf(RemoveAllWithId(s, id), s)
    ensures forall t :: t in RemoveAllWithId(s, id) <==> t in s && t.id != id
  {
    FilterIsSubsequence(s, (t: Task) => t.id != id);
  }

  /**
   * `addTask` stores the task under `freshId`, not under `t.id`. So `deleteTask(t)` finds no
   * record to delete, and the next load brings the task back, under the new id and without
   * its description.
   */
  lemma AddedTaskSurvivesDeleteAndReload(rs: seq<Record>, t: Task, freshId: Uuid)
    requires forall r :: r in rs ==> r.id != t.id
    requires freshId != t.id
    ensures AfterDelete(rs + [SavedRecord(t, freshId)], t.id, false) == rs + [SavedRecord(t, freshId)]
    ensures DecodeAll(AfterDelete(rs + [SavedRecord(t, freshId)], t.id, false))
         == DecodeAll(rs) + [t.(id := freshId, description := None)]
  {
    DeleteAbsentIdIsNoop(rs + [SavedRecord(t, freshId)], t.id, false);
    DecodeAllAppend(rs, [SavedRecord(t, freshId)]);
    SavedFieldsDecode(t.title, t.dueDate, freshId, t.category, t.priority, t.isCompleted);
  }

  /**
   * With the record saved under the task's own id, deleting the task removes that record and
   * nothing else, so the next load yields exactly what it yielded before the task was added.
   */
  lemma SavedUnderOwnIdStaysDeleted(rs: seq<Record>, t: Task)
    requires forall r :: r in rs ==> r.id != t.id
    ensures AfterDelete(rs + [SavedRecord(t, t.id)], t.id, false) == rs
    ensures DecodeAll(AfterDelete(rs + [SavedRecord(t, t.id)], t.id, false)) == DecodeAll(rs)
    ensures forall u :: u in DecodeAll(AfterDelete(rs + [SavedRecord(t, t.id)], t.id, false)) ==> u.id != t.id
  {
    FilterAppend(rs, [SavedRecord(t, t.id)], (r: Record) => r.id != t.id);
    WithoutIdNoMatch(rs, t.id);
    FilterKeepsNone([SavedRecord(t, t.id)], (r: Record) => r.id != t.id);
    forall u | u in DecodeAll(rs)
      ensures u.id != t.id
    {
      var r :| r in rs && Decode(r) == Some(u);
    }
  }
}
