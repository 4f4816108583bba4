/**
 * The two pieces of `ContentView` with behaviour: the computed `filteredTasks` that the list
 * shows, and the swipe-to-delete handler `deleteTask(at:)`, whose offsets index the shown rows.
 */
module ContentView {
  import opened Options
  import opened Sequences
  import opened TaskModel
  import opened DataManager
  import opened TaskManagement

  /** The upper-case letters that `LowerChar` folds. */
  predicate IsUpper(c: char) {
    'A' <= c <= 'Z' || 'А' <= c <= 'Я' || c == 'Ё'
  }

  /** `lowercased()` of one character, for ASCII and the basic Russian alphabet. */
  function LowerChar(c: char): (d: char)
    ensures !IsUpper(d)
    ensures !IsUpper(c) ==> d == c
    ensures IsUpper(c) ==> d != c
  {
    if 'A' <= c <= 'Z' then (c as int + 32) as char
    else if 'А' <= c <= 'Я' then (c as int + 32) as char
    else if c == 'Ё' then 'ё'
    else c
  }

  /** `lowercased()`: every character folded on its own, so the length is kept. */
  function Lowercased(s: string): (r: string)
    ensures |r| == |s| && forall i :: 0 <= i < |s| ==> r[i] == LowerChar(s[i])
    ensures forall c :: c in r ==> !IsUpper(c)
    ensures (forall c :: c in s ==> !IsUpper(c)) ==> r == s
  {
    seq(|s|, i requires 0 <= i < |s| => LowerChar(s[i]))
  }

  /** `String.contains`: `needle` occurs in `text` as a contiguous run. */
  function Contains(text: string, needle: string): (b: bool)
    ensures needle <= text ==> b
    ensures b ==> |needle| <= |text|
    ensures b ==> forall c :: c in needle ==> c in text
  {
    var b := exists i :: 0 <= i <= |text| && needle <= text[i..];
    assert needle <= text ==> b by {
      if needle <= text {
        assert text[0..] == text;
      }
    }
    assert b ==> forall c :: c in needle ==> c in text by {
      if b {
        var i :| 0 <= i <= |text| && needle <= text[i..];
        forall c | c in needle
          ensures c in text
        {
          var j :| 0 <= j < |needle| && needle[j] == c;
          assert text[i..][j] == c;
        }
      }
    }
    b
  }

  /** The closure of `filteredTasks`: the title matches the search, and completed tasks are wanted. */
  function Shown(t: Task, searchQuery: string, showCompleted: bool): (b: bool)
    ensures b ==> showCompleted || !t.isCompleted
    ensures b && searchQuery != [] ==> |searchQuery| <= |t.title|
    ensures searchQuery == [] ==> (b <==> showCompleted || !t.isCompleted)
  {
    (searchQuery == [] || Contains(Lowercased(t.title), Lowercased(searchQuery)))
    && (showCompleted || !t.isCompleted)
  }

  /** `filteredTasks`: the shown tasks, in list order. */
  function FilteredTasks(tasks: seq<Task>, searchQuery: string, showCompleted: bool): (r: seq<Task>)
    ensures SubsequenceOf(r, tasks)
    ensures forall t :: t in r <==> t in tasks && Shown(t, searchQuery, showCompleted)
  {
    FilterIsSubsequence(tasks, (t: Task) => Shown(t, searchQuery, showCompleted));
    Filter(tasks, (t: Task) => Shown(t, searchQuery, showCompleted))
  }

  /** With no search text and completed tasks shown, every task is listed. */
  lemma UnrestrictedFilterShowsAll(tasks: seq<Task>)
    ensures FilteredTasks(tasks, "", true) == tasks
  {
    FilterKeepsAll(tasks, (t: Task) => Shown(t, "", true));
  }

  lemma FilteredTasksIdempotent(tasks: seq<Task>, searchQuery: string, showCompleted: bool)
    ensures var shown := FilteredTasks(tasks, searchQuery, showCompleted);
      FilteredTasks(shown, searchQuery, showCompleted) == shown
  {
    FilterIdempotent(tasks, (t: Task) => Shown(t, searchQuery, showCompleted));
  }

  /** The task list and the store's records, side by side. */
  datatype Snapshot = Snapshot(tasks: seq<Task>, records: seq<Record>)

  /** The tasks of `tasks` whose id is not in `gone`, in list order. */
  function RemoveIds(tasks: seq<Task>, gone: seq<Uuid>): (r: seq<Task>)
    ensures |r| <= |tasks|
    ensures SubsequenceOf(r, tasks)
    ensures forall t :: t in r <==> t in tasks && t.id !in gone
  {
    FilterIsSubsequence(tasks, (t: Task) => t.id !in gone);
    Filter(tasks, (t: Task) => t.id !in gone)
  }

  lemma RemoveNoIds(tasks: seq<Task>)
    ensures RemoveIds(tasks, []) == tasks
  {
    FilterKeepsAll(tasks, (t: Task) => t.id !in []);
  }

  /** Deleting `id` and then the ids `gone` is deleting the ids `[id] + gone`. */
  lemma RemoveIdsAfterRemoveAll(tasks: seq<Task>, id: Uuid, gone: seq<Uuid>)
    ensures RemoveIds(RemoveAllWithId(tasks, id), gone) == RemoveIds(tasks, [id] + gone)
  {
    FilterTwice(tasks, (t: Task) => t.id != id, (t: Task) => t.id !in gone, (t: Task) => t.id !in [id] + gone);
  }

  /** Deleting the ids `gone` and then `id` is deleting the ids `gone + [id]`. */
  lemma RemoveAllAfterRemoveIds(tasks: seq<Task>, gone: seq<Uuid>, id: Uuid)
    ensures RemoveAllWithId(RemoveIds(tasks, gone), id) == RemoveIds(tasks, gone + [id])
  {
    FilterTwice(tasks, (t: Task) => t.id !in gone, (t: Task) => t.id != id, (t: Task) => t.id !in gone + [id]);
  }

  /** The records of `records` whose id is not in `gone`, in store order. */
  function KeptRecords(records: seq<Record>, gone: seq<Uuid>): (r: seq<Record>)
    ensures |r| <= |records|
    ensures forall x :: x in r <==> x in records && x.id !in gone
  {
    Filter(records, (x: Record) => x.id !in gone)
  }

  lemma KeptNoIds(records: seq<Record>)
    ensures KeptRecords(records, []) == records
  {
    FilterKeepsAll(records, (x: Record) => x.id !in []);
  }

  /** A store deletion of `id` followed by deletions of `gone` keeps what one deletion of both keeps. */
  lemma KeptAfterDelete(records: seq<Record>, id: Uuid, fails: bool, gone: seq<Uuid>)
    ensures KeptRecords(AfterDelete(records, id, fails), gone)
         == KeptRecords(records, (if fails then [] else [id]) + gone)
  {
    if fails {
      assert [] + gone == gone;
    } else {
      FilterTwice(records, (r: Record) => r.id != id, (x: Record) => x.id !in gone,
                  (x: Record) => x.id !in [id] + gone);
    }
  }

  /** Deletions of `gone` followed by a store deletion of `id` keep what one deletion of both keeps. */
  lemma DeleteAfterKept(records: seq<Record>, gone: seq<Uuid>, id: Uuid, fails: bool)
    ensures AfterDelete(KeptRecords(records, gone), id, fails)
         == KeptRecords(records, gone + (if fails then [] else [id]))
  {
    if fails {
      assert gone + [] == gone;
    } else {
      FilterTwice(records, (x: Record) => x.id !in gone, (r: Record) => r.id != id,
                  (x: Record) => x.id !in gone + [id]);
    }
  }

  /**
   * The ids that `deleteTask(at:)` deletes: the id at each offset of the list as the earlier
   * steps have left it, up to the first offset that is out of range.
   */
  function StepIds(tasks: seq<Task>, offsets: seq<nat>): (ids: seq<Uuid>)
    ensures |ids| <= |offsets|
    decreases |offsets|
  {
    if offsets == [] || offsets[0] >= |tasks| then []
    else
      var id := tasks[offsets[0]].id;
      [id] + StepIds(RemoveAllWithId(tasks, id), offsets[1..])
  }

  /** Step `k` read `ids[k]` at `offsets[k]` of the list without the ids of the steps before it. */
  ghost predicate ReadsAt(tasks: seq<Task>, offsets: seq<nat>, ids: seq<Uuid>, k: int) {
    0 <= k < |ids| && k < |offsets|
    && offsets[k] < |RemoveIds(tasks, ids[..k])| && ids[k] == RemoveIds(tasks, ids[..k])[offsets[k]].id
  }

  /** Every step of `StepIds` reads its id at its offset of the list the earlier steps left. */
  lemma {:induction false} StepIdsReadShrunkList(tasks: seq<Task>, offsets: seq<nat>)
    ensures forall k :: 0 <= k < |StepIds(tasks, offsets)| ==> ReadsAt(tasks, offsets, StepIds(tasks, offsets), k)
    decreases |offsets|
  {
    var ids := StepIds(tasks, offsets);
    if offsets != [] && offsets[0] < |tasks| {
      var id := tasks[offsets[0]].id;
      var rest := RemoveAllWithId(tasks, id);
      var later := StepIds(rest, offsets[1..]);
      StepIdsReadShrunkList(rest, offsets[1..]);
      assert ids == [id] + later;
      FirstStep(tasks, offsets, ids);
      forall k | 1 <= k < |ids|
        ensures ReadsAt(tasks, offsets, ids, k)
      {
        assert 0 <= k - 1 < |later|;
        assert ReadsAt(rest, offsets[1..], later, k - 1);
        LaterStep(tasks, id, later, offsets, k);
      }
    }
  }

  /** When the steps stop before the last offset, the next offset is past the end of the list they left. */
  lemma {:induction false} StepIdsStopAtTrap(tasks: seq<Task>, offsets: seq<nat>)
    ensures var ids := StepIds(tasks, offsets);
      |ids| < |offsets| ==> offsets[|ids|] >= |RemoveIds(tasks, ids)|
    decreases |offsets|
  {
    if offsets != [] && offsets[0] < |tasks| {
      var id := tasks[offsets[0]].id;
      var later := StepIds(RemoveAllWithId(tasks, id), offsets[1..]);
      StepIdsStopAtTrap(RemoveAllWithId(tasks, id), offsets[1..]);
      RemoveIdsAfterRemoveAll(tasks, id, later);
      if |later| < |offsets[1..]| {
        assert offsets[|later| + 1] == offsets[1..][|later|];
      }
    } else {
      RemoveNoIds(tasks);
    }
  }

  lemma FirstStep(tasks: seq<Task>, offsets: seq<nat>, ids: seq<Uuid>)
    requires offsets != [] && offsets[0] < |tasks| && ids != [] && ids[0] == tasks[offsets[0]].id
    ensures ReadsAt(tasks, offsets, ids, 0)
  {
    assert ids[..0] == [];
    RemoveNoIds(tasks);
  }

  /** Step `k` of `[id] + later` is step `k - 1` of `later`, on the list without `id`. */
  lemma LaterStep(tasks: seq<Task>, id: Uuid, later: seq<Uuid>, offsets: seq<nat>, k: nat)
    requires 1 <= k && offsets != []
    requires ReadsAt(RemoveAllWithId(tasks, id), offsets[1..], later, k - 1)
    ensures ReadsAt(tasks, offsets, [id] + later, k)
  {
    assert ([id] + later)[..k] == [id] + later[..k - 1];
    RemoveIdsAfterRemoveAll(tasks, id, later[..k - 1]);
  }

  /** The ids whose records the store deletes: those of the steps whose fetch did not throw. */
  function StoreIds(gone: seq<Uuid>, fetchFails: seq<bool>): (ids: seq<Uuid>)
    requires |fetchFails| == |gone|
    ensures forall id :: id in ids ==> exists k :: 0 <= k < |gone| && gone[k] == id && !fetchFails[k]
    ensures forall k :: 0 <= k < |gone| && !fetchFails[k] ==> gone[k] in ids
  {
    if gone == [] then []
    else
      var rest := StoreIds(gone[1..], fetchFails[1..]);
      assert forall id :: id in rest ==> exists k :: 0 <= k < |gone| && gone[k] == id && !fetchFails[k] by {
        forall id | id in rest
          ensures exists k :: 0 <= k < |gone| && gone[k] == id && !fetchFails[k]
        {
          var j :| 0 <= j < |gone[1..]| && gone[1..][j] == id && !fetchFails[1..][j];
          assert gone[j + 1] == id && !fetchFails[j + 1];
        }
      }
      assert forall k :: 1 <= k < |gone| && !fetchFails[k] ==> gone[k] in rest by {
        forall k | 1 <= k < |gone| && !fetchFails[k]
          ensures gone[k] in rest
        {
          assert gone[1..][k - 1] == gone[k] && fetchFails[1..][k - 1] == fetchFails[k];
        }
      }
      (if fetchFails[0] then [] else [gone[0]]) + rest
  }

  lemma {:induction false} StoreIdsAppend(gone: seq<Uuid>, fetchFails: seq<bool>, id: Uuid, fails: bool)
    requires |fetchFails| == |gone|
    ensures StoreIds(gone + [id], fetchFails + [fails]) == StoreIds(gone, fetchFails) + (if fails then [] else [id])
  {
    if gone != [] {
      assert (gone + [id])[1..] == gone[1..] + [id];
      assert (fetchFails + [fails])[1..] == fetchFails[1..] + [fails];
      StoreIdsAppend(gone[1..], fetchFails[1..], id, fails);
    }
  }

  /**
   * After deleting, in turn, every task whose id is in `gone`: the list is exactly the tasks
   * of `origTasks` with another id, in order, and the store is exactly the records of
   * `origRecords` whose id no step deleted, in order; step `k` deletes no record when its
   * fetch throws.
   */
  ghost predicate DeletedIds(tasks: seq<Task>, records: seq<Record>, origTasks: seq<Task>,
                             origRecords: seq<Record>, gone: seq<Uuid>, fetchFails: seq<bool>)
  {
    |fetchFails| == |gone|
    && tasks == RemoveIds(origTasks, gone)
    && records == KeptRecords(origRecords, StoreIds(gone, fetchFails))
  }

  lemma NothingDeleted(tasks: seq<Task>, records: seq<Record>)
    ensures DeletedIds(tasks, records, tasks, records, [], [])
  {
    RemoveNoIds(tasks);
    KeptNoIds(records);
  }

  /** A first deletion of `id` followed by deletions of `gone` is one deletion of `[id] + gone`. */
  lemma DeletedIdsPrepend(tasks: seq<Task>, records: seq<Record>, origTasks: seq<Task>,
                          origRecords: seq<Record>, id: Uuid, gone: seq<Uuid>, fetchFails: seq<bool>)
    requires fetchFails != []
    requires DeletedIds(tasks, records, RemoveAllWithId(origTasks, id), AfterDelete(origRecords, id, fetchFails[0]),
                        gone, fetchFails[1..])
    ensures DeletedIds(tasks, records, origTasks, origRecords, [id] + gone, fetchFails)
  {
    RemoveIdsAfterRemoveAll(origTasks, id, gone);
    KeptAfterDelete(origRecords, id, fetchFails[0], StoreIds(gone, fetchFails[1..]));
    assert ([id] + gone)[1..] == gone;
  }

  /** Deletions of `ids[..k]` followed by a deletion of `ids[k]` are deletions of `ids[..k + 1]`. */
  lemma DeletedIdsStep(tasks: seq<Task>, records: seq<Record>, origTasks: seq<Task>,
                       origRecords: seq<Record>, ids: seq<Uuid>, fetchFails: seq<bool>, k: nat)
    requires k < |ids| == |fetchFails|
    requires DeletedIds(tasks, records, origTasks, origRecords, ids[..k], fetchFails[..k])
    ensures DeletedIds(RemoveAllWithId(tasks, ids[k]), AfterDelete(records, ids[k], fetchFails[k]),
                       origTasks, origRecords, ids[..k + 1], fetchFails[..k + 1])
  {
    assert ids[..k + 1] == ids[..k] + [ids[k]];
    assert fetchFails[..k + 1] == fetchFails[..k] + [fetchFails[k]];
    DeletedIdsAppend(tasks, records, origTasks, origRecords, ids[..k], fetchFails[..k], ids[k], fetchFails[k]);
  }

  lemma DeletedIdsAppend(tasks: seq<Task>, records: seq<Record>, origTasks: seq<Task>,
                         origRecords: seq<Record>, gone: seq<Uuid>, fetchFails: seq<bool>, id: Uuid, fails: bool)
    requires DeletedIds(tasks, records, origTasks, origRecords, gone, fetchFails)
    ensures DeletedIds(RemoveAllWithId(tasks, id), AfterDelete(records, id, fails),
                       origTasks, origRecords, gone + [id], fetchFails + [fails])
  {
    RemoveAllAfterRemoveIds(origTasks, gone, id);
    DeleteAfterKept(origRecords, StoreIds(gone, fetchFails), id, fails);
    StoreIdsAppend(gone, fetchFails, id, fails);
  }

  /**
   * `deleteTask(at:)` as written: each offset, in ascending order, indexes the whole and
   * already shrunk `taskManager.tasks`, and the task found there is deleted from the list and,
   * unless that step's fetch throws, from the store. `None` is Swift's out-of-range trap.
   */
  function DeleteAtOffsets(tasks: seq<Task>, records: seq<Record>, offsets: seq<nat>, fetchFails: seq<bool>)
    : (r: Option<Snapshot>)
    requires |fetchFails| == |offsets|
    ensures r.None? <==> |StepIds(tasks, offsets)| < |offsets|
    ensures r.Some? ==> DeletedIds(r.value.tasks, r.value.records, tasks, records, StepIds(tasks, offsets), fetchFails)
    ensures r.Some? ==> |r.value.tasks| + |offsets| <= |tasks|
    decreases |offsets|
  {
    if offsets == [] then
      NothingDeleted(tasks, records);
      Some(Snapshot(tasks, records))
    else if offsets[0] >= |tasks| then None
    else
      var victim := tasks[offsets[0]];
      var r := DeleteAtOffsets(RemoveAllWithId(tasks, victim.id), AfterDelete(records, victim.id, fetchFails[0]),
                               offsets[1..], fetchFails[1..]);
      FirstOffsetRead(tasks, offsets);
      FilterShortens(tasks, (t: Task) => t.id != victim.id, victim);
      if r.Some? then
        DeletedIdsPrepend(r.value.tasks, r.value.records, tasks, records, victim.id,
                          StepIds(RemoveAllWithId(tasks, victim.id), offsets[1..]), fetchFails);
        r
      else r
  }

  /** The first step reads the id at the first offset, and the later steps read the list without it. */
  lemma FirstOffsetRead(tasks: seq<Task>, offsets: seq<nat>)
    requires offsets != [] && offsets[0] < |tasks|
    ensures var id := tasks[offsets[0]].id;
      StepIds(tasks, offsets) == [id] + StepIds(RemoveAllWithId(tasks, id), offsets[1..])
  {
  }

  /**
   * The handler itself, as written; `trapped` is Swift's out-of-range trap. The deletions of
   * the steps before a trap have already reached the store, and they outlive the crash.
   */
  method DeleteTaskAt(manager: TaskManager, offsets: seq<nat>, fetchFails: seq<bool>) returns (trapped: bool)
    requires forall i, j :: 0 <= i < j < |offsets| ==> offsets[i] < offsets[j]
    requires |fetchFails| == |offsets|
    modifies manager, manager.db
    ensures trapped <==> DeleteAtOffsets(old(manager.tasks), old(manager.db.records), offsets, fetchFails).None?
    ensures !trapped ==> DeleteAtOffsets(old(manager.tasks), old(manager.db.records), offsets, fetchFails)
                         == Some(Snapshot(manager.tasks, manager.db.records))
    ensures trapped ==> var ids := StepIds(old(manager.tasks), offsets);
      DeletedIds(manager.tasks, manager.db.records, old(manager.tasks), old(manager.db.records),
                 ids, fetchFails[..|ids|])
  {
    trapped := false;
    ghost var done: seq<Uuid> := [];
    HandlerStart(manager.tasks, manager.db.records, offsets, fetchFails);
    var k := 0;
    while k < |offsets|
      invariant k <= |offsets|
      invariant Handled(old(manager.tasks), old(manager.db.records), manager.tasks, manager.db.records,
                        offsets, fetchFails, k, done)
    {
      var index := offsets[k];
      if index >= |manager.tasks| {
        HandlerTrap(old(manager.tasks), old(manager.db.records), manager.tasks, manager.db.records,
                    offsets, fetchFails, k, done);
        trapped := true;
        return;
      }
      var victim := manager.tasks[index];
      HandlerStep(old(manager.tasks), old(manager.db.records), manager.tasks, manager.db.records,
                  offsets, fetchFails, k, done);
      manager.DeleteTask(victim, fetchFails[k]);
      done := done + [victim.id];
      k := k + 1;
    }
    HandlerEnd(old(manager.tasks), old(manager.db.records), manager.tasks, manager.db.records,
               offsets, fetchFails, done);
  }

  /**
   * The handler's loop state before offset `k`: the earlier steps deleted `done`, the first `k`
   * ids of `StepIds`, and the rest of `StepIds` are the steps still to come on the shrunk list.
   */
  ghost predicate Handled(origTasks: seq<Task>, origRecords: seq<Record>, tasks: seq<Task>, records: seq<Record>,
                          offsets: seq<nat>, fetchFails: seq<bool>, k: nat, done: seq<Uuid>)
  {
    |offsets| == |fetchFails| && StepsAhead(origTasks, tasks, offsets, k, done)
    && DeletedIds(tasks, records, origTasks, origRecords, done, fetchFails[..k])
  }

  /** The first `k` steps deleted `done`, and the rest of `StepIds` are the steps on the list they left. */
  ghost predicate StepsAhead(origTasks: seq<Task>, tasks: seq<Task>, offsets: seq<nat>, k: nat, done: seq<Uuid>)
  {
    k <= |offsets| && |done| == k && StepIds(origTasks, offsets) == done + StepIds(tasks, offsets[k..])
  }

  lemma StepsAheadStep(origTasks: seq<Task>, tasks: seq<Task>, offsets: seq<nat>, k: nat, done: seq<Uuid>)
    requires k < |offsets| && offsets[k] < |tasks|
    requires StepsAhead(origTasks, tasks, offsets, k, done)
    ensures var id := tasks[offsets[k]].id;
      StepsAhead(origTasks, RemoveAllWithId(tasks, id), offsets, k + 1, done + [id])
  {
    var id := tasks[offsets[k]].id;
    StepIdsStep(tasks, offsets, k);
    var later := StepIds(RemoveAllWithId(tasks, id), offsets[k + 1..]);
    assert done + ([id] + later) == (done + [id]) + later;
  }

  lemma HandlerStart(tasks: seq<Task>, records: seq<Record>, offsets: seq<nat>, fetchFails: seq<bool>)
    requires |fetchFails| == |offsets|
    ensures Handled(tasks, records, tasks, records, offsets, fetchFails, 0, [])
  {
    NothingDeleted(tasks, records);
    assert fetchFails[..0] == [] && offsets[0..] == offsets;
  }

  /** Offset `k` is in range: its step deletes the id found there and moves the state to `k + 1`. */
  lemma HandlerStep(origTasks: seq<Task>, origRecords: seq<Record>, tasks: seq<Task>, records: seq<Record>,
                    offsets: seq<nat>, fetchFails: seq<bool>, k: nat, done: seq<Uuid>)
    requires k < |offsets| && offsets[k] < |tasks|
    requires Handled(origTasks, origRecords, tasks, records, offsets, fetchFails, k, done)
    ensures var id := tasks[offsets[k]].id;
      Handled(origTasks, origRecords, RemoveAllWithId(tasks, id), AfterDelete(records, id, fetchFails[k]),
              offsets, fetchFails, k + 1, done + [id])
  {
    var id := tasks[offsets[k]].id;
    StepsAheadStep(origTasks, tasks, offsets, k, done);
    DeletedIdsPush(tasks, records, origTasks, origRecords, done, fetchFails, k, id);
  }

  /** Offset `k` is out of range: the steps taken are all of `StepIds`, and the handler traps. */
  lemma HandlerTrap(origTasks: seq<Task>, origRecords: seq<Record>, tasks: seq<Task>, records: seq<Record>,
                    offsets: seq<nat>, fetchFails: seq<bool>, k: nat, done: seq<Uuid>)
    requires k < |offsets| && offsets[k] >= |tasks|
    requires Handled(origTasks, origRecords, tasks, records, offsets, fetchFails, k, done)
    ensures DeleteAtOffsets(origTasks, origRecords, offsets, fetchFails).None?
    ensures var ids := StepIds(origTasks, offsets);
      DeletedIds(tasks, records, origTasks, origRecords, ids, fetchFails[..|ids|])
  {
    assert StepIds(tasks, offsets[k..]) == [];
    assert done + [] == done;
    HandlerResult(origTasks, origRecords, tasks, records, offsets, fetchFails, done);
  }

  /** Every offset was in range: the state reached is the one `DeleteAtOffsets` gives. */
  lemma HandlerEnd(origTasks: seq<Task>, origRecords: seq<Record>, tasks: seq<Task>, records: seq<Record>,
                   offsets: seq<nat>, fetchFails: seq<bool>, done: seq<Uuid>)
    requires Handled(origTasks, origRecords, tasks, records, offsets, fetchFails, |offsets|, done)
    ensures DeleteAtOffsets(origTasks, origRecords, offsets, fetchFails) == Some(Snapshot(tasks, records))
  {
    assert offsets[|offsets|..] == [] && done + [] == done;
    HandlerResult(origTasks, origRecords, tasks, records, offsets, fetchFails, done);
  }

  /** Where the steps taken are exactly `StepIds`, the state they reach is the one `DeleteAtOffsets` gives. */
  lemma HandlerResult(origTasks: seq<Task>, origRecords: seq<Record>, tasks: seq<Task>, records: seq<Record>,
                      offsets: seq<nat>, fetchFails: seq<bool>, done: seq<Uuid>)
    requires |fetchFails| == |offsets| && |done| <= |offsets|
    requires StepIds(origTasks, offsets) == done
    requires DeletedIds(tasks, records, origTasks, origRecords, done, fetchFails[..|done|])
    ensures DeleteAtOffsets(origTasks, origRecords, offsets, fetchFails).None? <==> |done| < |offsets|
    ensures |done| == |offsets| ==> DeleteAtOffsets(origTasks, origRecords, offsets, fetchFails)
                                    == Some(Snapshot(tasks, records))
  {
    var r := DeleteAtOffsets(origTasks, origRecords, offsets, fetchFails);
    if |done| == |offsets| {
      assert fetchFails[..|done|] == fetchFails;
      assert r.value == Snapshot(r.value.tasks, r.value.records);
    }
  }

  /** A deletion of `id` by the step whose fetch flag is `fetchFails[k]` extends the deletions of `done`. */
  lemma DeletedIdsPush(tasks: seq<Task>, records: seq<Record>, origTasks: seq<Task>, origRecords: seq<Record>,
                       done: seq<Uuid>, fetchFails: seq<bool>, k: nat, id: Uuid)
    requires k < |fetchFails|
    requires DeletedIds(tasks, records, origTasks, origRecords, done, fetchFails[..k])
    ensures DeletedIds(RemoveAllWithId(tasks, id), AfterDelete(records, id, fetchFails[k]),
                       origTasks, origRecords, done + [id], fetchFails[..k + 1])
  {
    assert fetchFails[..k + 1] == fetchFails[..k] + [fetchFails[k]];
    DeletedIdsAppend(tasks, records, origTasks, origRecords, done, fetchFails[..k], id, fetchFails[k]);
  }

  lemma StepIdsStep(tasks: seq<Task>, offsets: seq<nat>, k: nat)
    requires k < |offsets| && offsets[k] < |tasks|
    ensures var id := tasks[offsets[k]].id;
      StepIds(tasks, offsets[k..]) == [id] + StepIds(RemoveAllWithId(tasks, id), offsets[k + 1..])
  {
    assert offsets[k..][1..] == offsets[k + 1..];
  }

  /**
   * The offsets of `deleteTask(at:)` are rows of `filteredTasks`, but they index the whole
   * list, which also shrinks after every deletion. With every task shown, deleting both rows
   * of a two-task list traps on the second offset; with completed tasks hidden, deleting the
   * only row shown deletes the hidden task instead.
   */
  lemma DeleteAtOffsetsMissesShownRows()
    ensures var a := Task(1, "a", 1); var b := Task(2, "b", 2);
      FilteredTasks([a, b], "", true) == [a, b]
      && DeleteAtOffsets([a, b], [], [0, 1], [false, false]) == None
      && StepIds([a, b], [0, 1]) == [a.id]
    ensures var a := Task(1, "a", 1, isCompleted := true); var b := Task(2, "b", 2);
      FilteredTasks([a, b], "", false) == [b]
      && DeleteAtOffsets([a, b], [], [0], [false]) == Some(Snapshot([b], []))
  {
    var a, b := Task(1, "a", 1), Task(2, "b", 2);
    UnrestrictedFilterShowsAll([a, b]);
    RemoveFirstRow(a, b);
    assert DeleteAtOffsets([a, b], [], [0, 1], [false, false]) == DeleteAtOffsets([b], [], [1], [false]);
    assert StepIds([a, b], [0, 1]) == [a.id] + StepIds([b], [1]);
    var done := Task(1, "a", 1, isCompleted := true);
    RemoveFirstRow(done, b);
    assert !Shown(done, "", false) && Shown(b, "", false);
    FilterPair(done, b, (t: Task) => Shown(t, "", false));
    assert DeleteAtOffsets([done, b], [], [0], [false]) == DeleteAtOffsets([b], [], [], []);
  }

  /** Deleting the first of two tasks with distinct ids leaves the second. */
  lemma RemoveFirstRow(a: Task, b: Task)
    requires a.id != b.id
    ensures RemoveAllWithId([a, b], a.id) == [b]
    ensures AfterDelete([], a.id, false) == []
  {
    assert [a, b] == [a] + [b];
    FilterCons(a, [b], (t: Task) => t.id != a.id);
    FilterCons(b, [], (t: Task) => t.id != a.id);
    FilterKeepsNone([], (r: Record) => r.id != a.id);
  }

  /** The ids of the tasks on the rows `offsets` of the shown list. */
  function RowIds(shown: seq<Task>, offsets: seq<nat>): (ids: seq<Uuid>)
    requires forall k :: 0 <= k < |offsets| ==> offsets[k] < |shown|
    ensures |ids| == |offsets|
    ensures forall k :: 0 <= k < |offsets| ==> ids[k] == shown[offsets[k]].id
  {
    seq(|offsets|, k requires 0 <= k < |offsets| => shown[offsets[k]].id)
  }

  /**
   * `deleteTask(at:)` as evidently intended: the offsets are resolved against the rows on
   * screen before anything is deleted, and the tasks on those rows are deleted.
   */
  method DeleteShownTasksAt(manager: TaskManager, searchQuery: string, showCompleted: bool,
                            offsets: seq<nat>, fetchFails: seq<bool>)
    requires forall k :: 0 <= k < |offsets| ==> offsets[k] < |FilteredTasks(manager.tasks, searchQuery, showCompleted)|
    requires |fetchFails| == |offsets|
    modifies manager, manager.db
    ensures DeletedIds(manager.tasks, manager.db.records, old(manager.tasks), old(manager.db.records),
                       RowIds(old(FilteredTasks(manager.tasks, searchQuery, showCompleted)), offsets), fetchFails)
  {
    var shown := FilteredTasks(manager.tasks, searchQuery, showCompleted);
    ghost var ids := RowIds(shown, offsets);
    DeletedPrefixStart(manager.tasks, manager.db.records, ids, fetchFails);
    var k := 0;
    while k < |offsets|
      invariant DeletedPrefix(manager.tasks, manager.db.records, old(manager.tasks), old(manager.db.records),
                              ids, fetchFails, k)
    {
      DeletedPrefixStep(manager.tasks, manager.db.records, old(manager.tasks), old(manager.db.records),
                        ids, fetchFails, k);
      manager.DeleteTask(shown[offsets[k]], fetchFails[k]);
      k := k + 1;
    }
    assert ids[..k] == ids && fetchFails[..k] == fetchFails;
  }

  /** The first `k` of the deletions of `ids` are done. */
  ghost predicate DeletedPrefix(tasks: seq<Task>, records: seq<Record>, origTasks: seq<Task>,
                                origRecords: seq<Record>, ids: seq<Uuid>, fetchFails: seq<bool>, k: int)
  {
    0 <= k <= |ids| == |fetchFails| && DeletedIds(tasks, records, origTasks, origRecords, ids[..k], fetchFails[..k])
  }

  lemma DeletedPrefixStart(tasks: seq<Task>, records: seq<Record>, ids: seq<Uuid>, fetchFails: seq<bool>)
    requires |ids| == |fetchFails|
    ensures DeletedPrefix(tasks, records, tasks, records, ids, fetchFails, 0)
  {
    NothingDeleted(tasks, records);
    assert ids[..0] == [] && fetchFails[..0] == [];
  }

  lemma DeletedPrefixStep(tasks: seq<Task>, records: seq<Record>, origTasks: seq<Task>,
                          origRecords: seq<Record>, ids: seq<Uuid>, fetchFails: seq<bool>, k: nat)
    requires k < |ids| && DeletedPrefix(tasks, records, origTasks, origRecords, ids, fetchFails, k)
    ensures DeletedPrefix(RemoveAllWithId(tasks, ids[k]), AfterDelete(records, ids[k], fetchFails[k]),
                          origTasks, origRecords, ids, fetchFails, k + 1)
  {
    DeletedIdsStep(tasks, records, origTasks, origRecords, ids, fetchFails, k);
  }

  /** Searching for "buy" lists "Buy milk" and not "Write report". */
  lemma SearchExample()
    ensures var t1 := Task(1, "Buy milk", 20240105); var t2 := Task(2, "Write report", 20240110, isCompleted := true);
      FilteredTasks([t1, t2], "buy", true) == [t1]
  {
    var t1 := Task(1, "Buy milk", 20240105);
    var t2 := Task(2, "Write report", 20240110, isCompleted := true);
    SearchMatches(t1, t2);
    FilterPair(t1, t2, (t: Task) => Shown(t, "buy", true));
  }

  lemma SearchMatches(t1: Task, t2: Task)
    requires t1.title == "Buy milk" && t2.title == "Write report"
    ensures Shown(t1, "buy", true) && !Shown(t2, "buy", true)
  {
    assert Lowercased("buy") == "buy";
    assert "buy" <= Lowercased(t1.title)[0..];
    LowercasedAvoids(t2.title, 'B', 'b');
    NotContained(Lowercased(t2.title), "buy");
  }

  /** Hiding completed tasks lists the unfinished "Buy milk" only. */
  lemma HideCompletedExample()
    ensures var t1 := Task(1, "Buy milk", 20240105); var t2 := Task(2, "Write report", 20240110, isCompleted := true);
      FilteredTasks([t1, t2], "", false) == [t1]
  {
    var t1 := Task(1, "Buy milk", 20240105);
    var t2 := Task(2, "Write report", 20240110, isCompleted := true);
    assert Shown(t1, "", false) && !Shown(t2, "", false);
    FilterPair(t1, t2, (t: Task) => Shown(t, "", false));
  }

  /** A string with neither `upper` nor `lower` lowercases to one without `lower`. */
  lemma LowercasedAvoids(s: string, upper: char, lower: char)
    requires LowerChar(upper) == lower
    requires forall c :: LowerChar(c) == lower ==> c == upper || c == lower
    requires upper !in s && lower !in s
    ensures lower !in Lowercased(s)
  {
  }

  /** A needle whose first character does not occur in the text is not contained in it. */
  lemma NotContained(text: string, needle: string)
    requires needle != [] && needle[0] !in text
    ensures !Contains(text, needle)
  {
    forall i | 0 <= i <= |text| && needle <= text[i..]
      ensures false
    {
    }
  }
}
