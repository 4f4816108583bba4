# ToDoList task store, modelled in Dafny

This project models the task store of the ToDoList iOS app and the record decoding behind
it. It covers:

- the closed enumerations `Category`, `Priority` and `Settings.Theme` and their raw-string codecs;
- the `Task` value type, with its defaulted initialiser and its `update`;
- the in-memory store `TaskManager`;
- the CoreData record store `DataManager`, with CoreData reduced to a sequence of records that have the `TasksEntity` fields;
- the list filter `filteredTasks` and the swipe-to-delete handler `deleteTask(at:)` of `ContentView`;
- the `colorScheme` that a theme selects.

Files, one module each:

- `options.dfy` (`Options`): Swift's `Optional`.
- `sequences.dfy` (`Sequences`): `filter` (and so `removeAll(where:)`), removal of one element, and order-preserving subsequences.
- `category.dfy` (`Categories`), `priority.dfy` (`Priorities`): the two string-backed enums.
- `task.dfy` (`TaskModel`): `Task`. Its `init` is the datatype constructor with default parameter values.
- `data_manager.dfy` (`DataManager`): the record type, decoding, and the class `RecordStore` with `saveTask`, `deleteTask(id:)` and `fetchTask`.
- `task_manager.dfy` (`TaskManagement`): the class `TaskManager`. It holds a `seq<Task>` and the record store that `DataManager.shared` provides.
- `content_view.dfy` (`ContentView`): `filteredTasks` and `deleteTask(at:)`.
- `settings.dfy` (`Settings`), `app.dfy` (`ToDoListApp`): `Theme`, the stored-setting defaults, and `colorScheme`.

Environment inputs are parameters:

- A `UUID()` drawn by `saveTask` is a `freshId` that no stored record uses.
- A fetch request that throws is `fetchFails`. In `deleteTask(at:)` every step runs its own fetch, so that handler takes one such flag per offset.
- `Date` is a whole number of seconds.

Facts the model proves about the combined store:

- `addTask` saves its record under a new id, not under `task.id`. So `deleteTask(task)` finds no record. The next load brings the task back under the new id (`AddedTaskSurvivesDeleteAndReload`).
- `updateTask` and `toggleTaskCompletion` change memory only. The store is unchanged.
- Records have no description field, so every loaded task has none.

Facts about the code that shape the model:

- `Priority` has only `low`, `medium` and `high`. `PriorityBadge` switches on `.none`, but `Priority` has no such case.
- `addTask` persists the task under a fresh `UUID()`, not under `task.id`.
- `updateTask` and `toggleTaskCompletion` are not persisted.
- `filteredTasks` filters on the search text and the completion flag only. It has no due-day condition.
- `deleteTask(at:)` resolves each offset against the whole list as the earlier steps have already shrunk it.
- `fetchTask` drops records whose category or priority string names no case. The entity has no other optional fields that could be missing.

## Model

| member | source | states |
|---|---|---|
| `Categories.FromRaw` | ToDoList/Models/Category.swift:10-13 | `Category(rawValue:)` returns a case whose raw string is the input, and is nil exactly when no case has that raw string |
| `Categories.AllCasesExactlyThree` | ToDoList/Models/Category.swift:10-13 | the cases are exactly work, personal, shopping, each once |
| `Categories.RawValueInjective` | ToDoList/Models/Category.swift:11-13 | two cases have the same raw string only if they are the same case |
| `Categories.RoundTrip` | ToDoList/Models/Category.swift:10-13 | decoding the raw string of a case gives back that case |
| `Categories.IdDecodes` | ToDoList/Models/Category.swift:15 | `id` is the raw string, so the `category.id` that `addTask` persists decodes back to the category |
| `Priorities.FromRaw` | ToDoList/Models/Priority.swift:9-12 | `Priority(rawValue:)` returns a case whose raw string is the input, and is nil exactly when no case has that raw string |
| `Priorities.AllCasesExactlyThree` | ToDoList/Models/Priority.swift:9-12 | the cases are exactly low, medium, high, each once; there is no `none` |
| `Priorities.RawValueInjective` | ToDoList/Models/Priority.swift:10-12 | distinct priorities have distinct raw strings |
| `Priorities.RoundTrip` | ToDoList/Models/Priority.swift:9-12 | decoding the raw string of a priority gives back that priority |
| `Priorities.IdIsRawValue` | ToDoList/Models/Priority.swift:15 | `id` is the raw string and decodes back to the priority |
| `Settings.ThemeFromRaw` | ToDoList/Utilities/Settings.swift:33-44 | `Theme(rawValue:)` inverts `rawValue`, and is nil for every string that is not one of the three raw values |
| `Settings.ThemeRoundTrip` | ToDoList/Utilities/Settings.swift:33-55 | `Theme(rawValue: t.rawValue) == t` for every theme |
| `Settings.ThemeRawValueInjective` | ToDoList/Utilities/Settings.swift:46-55 | distinct themes have distinct raw values |
| `Settings.Defaults` | ToDoList/Utilities/Settings.swift:10-16 | the stored theme defaults to system ("system.theme") and the language to "en" |
| `ToDoListApp.PreferredColorScheme` | ToDoList/ToDoListApp.swift:24-35 | light gives the light scheme, dark the dark scheme, and nil comes exactly from system |
| `ToDoListApp.PreferredColorSchemeInjective` | ToDoList/ToDoListApp.swift:26-33 | on the themes that select a scheme, different themes select different schemes |
| `TaskModel.InitDefaults` | ToDoList/Models/Task.swift:19-27 | without those arguments a task is personal, low priority, not completed, with no description |
| `TaskModel.InitStoresArguments` | ToDoList/Models/Task.swift:19-35 | the initialiser stores every argument in its field |
| `TaskModel.Update` | ToDoList/Models/Task.swift:38-45 | `update` sets title, due date, category, priority and description (as a present value) and keeps `id` and `isCompleted` |
| `TaskModel.UpdateIdempotent` | ToDoList/Models/Task.swift:38-45 | updating twice with the same arguments equals updating once |
| `TaskModel.UpdateLastWins` | ToDoList/Models/Task.swift:38-45 | of two successive updates only the last one's arguments remain |
| `DataManager.Decode` | ToDoList/DataBase/DataManager.swift:72-86 | a record decodes exactly when both its category and priority strings name a case; the task then has the record's id, text, time and flag, no description, and the cases whose raw strings were stored |
| `DataManager.DecodeAll` | ToDoList/DataBase/DataManager.swift:72-87 | `fetchTask` returns no more tasks than records, and each task is the decoding of some record |
| `DataManager.DecodeAllIsFilterThenDecode` | ToDoList/DataBase/DataManager.swift:72-87 | the result is, in store order and position by position, the decoding of exactly the decodable records |
| `DataManager.DecodeCountsDecodableRecords` | ToDoList/DataBase/DataManager.swift:72-87 | `fetchTask` yields exactly as many tasks as there are decodable records, in any order of the records |
| `DataManager.DecodeCountsValidRecords` | ToDoList/DataBase/DataManager.swift:72-78 | N decodable records followed by M undecodable ones yield N tasks |
| `DataManager.DecodeAllAppend` | ToDoList/DataBase/DataManager.swift:72-87 | decoding distributes over concatenation of record sequences |
| `DataManager.SavedFieldsDecode` | ToDoList/DataBase/DataManager.swift:36-86 | a record saved with `category.id` and `priority.rawValue` decodes back to the same category and priority, with the saved id, text, time and flag |
| `DataManager.WithId` | ToDoList/DataBase/DataManager.swift:49-50 | the `id == %@` request returns exactly the stored records with that id, and no more records than are stored |
| `DataManager.AfterDelete` | ToDoList/DataBase/DataManager.swift:48-65 | after `deleteTask(id:)` the store holds exactly the records without that id, or is unchanged when the fetch throws |
| `DataManager.DeleteAbsentIdIsNoop` | ToDoList/DataBase/DataManager.swift:53-56 | deleting an id no record carries leaves the store unchanged |
| `DataManager.RecordStore.SaveTask` | ToDoList/DataBase/DataManager.swift:36-45 | appends exactly one record with the fresh id and the given fields; no existing record changes |
| `DataManager.RecordStore.DeleteTask` | ToDoList/DataBase/DataManager.swift:48-65 | the loop over the fetched records deletes every record with the id and keeps all others in order |
| `DataManager.RecordStore.FetchTask` | ToDoList/DataBase/DataManager.swift:68-92 | a failing fetch yields no tasks; otherwise no more tasks than records, each decoded from a stored record |
| `TaskManagement.FirstIndexWithId` | ToDoList/ViewModels/TaskManager.swift:27 | `firstIndex(where:)` gives the least position holding the id, or nil exactly when no task has it |
| `TaskManagement.SortByDueDate` | ToDoList/ViewModels/TaskManager.swift:16 | the sort's result is ascending by due date and a permutation of its input |
| `TaskManagement.Toggled` | ToDoList/ViewModels/TaskManager.swift:26-30 | only the first task with the id changes, and only in its completion flag; length and ids are kept; with no such task nothing changes |
| `TaskManagement.Replaced` | ToDoList/ViewModels/TaskManager.swift:37-41 | the first task with the id is replaced wholesale by the new task, including its completion flag; every other position is kept |
| `TaskManagement.TaskManager.constructor` | ToDoList/ViewModels/TaskManager.swift:43-49 | `init` loads the list once from the store and leaves the store unchanged |
| `TaskManagement.TaskManager.AddTask` | ToDoList/ViewModels/TaskManager.swift:14-24 | the list becomes a permutation of the old list plus the task, sorted by due date; the store gains exactly one record, under the fresh id rather than the task's id |
| `TaskManagement.RemoveAllWithId` | ToDoList/ViewModels/TaskManager.swift:33 | `removeAll { $0.id == task.id }` keeps exactly the tasks with another id and never lengthens the list |
| `TaskManagement.SavedRecord` | ToDoList/ViewModels/TaskManager.swift:17-23 | the record `addTask` passes to `saveTask` (which adds the fresh id) carries that id and decodes back to the task under that id, with no description |
| `TaskManagement.TaskManager.ToggleTaskCompletion` | ToDoList/ViewModels/TaskManager.swift:26-30 | the list becomes `Toggled` of the old list, and the store is untouched |
| `TaskManagement.TaskManager.DeleteTask` | ToDoList/ViewModels/TaskManager.swift:32-35 | every task with the id leaves the list, order kept, and the store deletes every record with the id |
| `TaskManagement.TaskManager.UpdateTask` | ToDoList/ViewModels/TaskManager.swift:37-41 | the list becomes `Replaced` of the old list, without sorting again, and the store is untouched |
| `TaskManagement.TaskManager.FetchTasks` | ToDoList/ViewModels/TaskManager.swift:43-45 | the list becomes exactly what the store decodes |
| `TaskManagement.ToggleTwiceRestores` | ToDoList/ViewModels/TaskManager.swift:26-30 | toggling the same task twice restores the list |
| `TaskManagement.AbsentIdIsNoop` | ToDoList/ViewModels/TaskManager.swift:26-41 | toggling, updating or deleting an id absent from the list leaves it unchanged |
| `TaskManagement.DeleteKeepsOrder` | ToDoList/ViewModels/TaskManager.swift:33 | `removeAll` keeps the remaining tasks in order and removes every task with the id |
| `TaskManagement.AddedTaskSurvivesDeleteAndReload` | ToDoList/ViewModels/TaskManager.swift:14-35 | after `addTask` then `deleteTask` of the same task, the store still holds its record, and a reload yields the task under the fresh id with no description |
| `TaskManagement.TaskManager.AddTaskUnderOwnId` | ToDoList/ViewModels/TaskManager.swift:14-24 | as `addTask`, but the record carries the task's own id |
| `TaskManagement.SavedUnderOwnIdStaysDeleted` | ToDoList/ViewModels/TaskManager.swift:14-35 | with the record saved under the task's id, deleting the task returns the store to exactly the records it held before the add, so a reload yields what it yielded then and the task does not come back under any id |
| `ContentView.LowerChar` | ToDoList/Views/ContentView.swift:22 | `lowercased()` of one character: the result is never an upper-case letter, a character that is not upper-case is kept, and an upper-case letter is changed |
| `ContentView.Lowercased` | ToDoList/Views/ContentView.swift:22 | `lowercased()` keeps the length, folds each character on its own, leaves no upper-case letter, and leaves a string without upper-case letters unchanged |
| `ContentView.Contains` | ToDoList/Views/ContentView.swift:22 | `contains`: a prefix is contained; a contained string is no longer than the text, and each of its characters occurs in the text |
| `ContentView.Shown` | ToDoList/Views/ContentView.swift:21-23 | the filter closure: a shown task is not completed unless completed tasks are shown; with a non-empty query its title is at least as long as the query; with an empty query only the completion condition applies |
| `ContentView.FilteredTasks` | ToDoList/Views/ContentView.swift:20-25 | `filteredTasks` is an order-preserving subsequence of the list and holds exactly the tasks whose lowercased title contains the lowercased query (any task if the query is empty) and that are not completed unless completed tasks are shown |
| `ContentView.UnrestrictedFilterShowsAll` | ToDoList/Views/ContentView.swift:20-25 | with an empty query and completed tasks shown, the filter returns the whole list |
| `ContentView.FilteredTasksIdempotent` | ToDoList/Views/ContentView.swift:20-25 | filtering the result again with the same parameters returns it unchanged |
| `ContentView.SearchExample` | ToDoList/Views/ContentView.swift:20-25 | searching "buy" among "Buy milk" and "Write report" lists "Buy milk" only |
| `ContentView.HideCompletedExample` | ToDoList/Views/ContentView.swift:20-25 | hiding completed tasks lists the unfinished one only |
| `ContentView.StepIdsReadShrunkList` | ToDoList/Views/ContentView.swift:180-181 | step `k` of `StepIds` reads its id at `offsets[k]` of the whole list without the ids of the earlier steps, which is the list `removeAll` has left by then |
| `ContentView.StepIdsStopAtTrap` | ToDoList/Views/ContentView.swift:180-181 | when the steps stop before the last offset, the next offset is at or past the end of the list the earlier steps left |
| `ContentView.StoreIds` | ToDoList/DataBase/DataManager.swift:52-64 | the ids whose records a batch of deletions removes are exactly the ids of the steps whose own fetch did not throw |
| `ContentView.DeleteAtOffsets` | ToDoList/Views/ContentView.swift:178-184 | the handler traps exactly when some offset is at or past the end of the list at its step (`StepIds` stops early); otherwise the list keeps, in order, exactly the tasks whose id no step read, the store keeps exactly the records whose id no step with a working fetch deleted, and at least one task goes per offset |
| `ContentView.DeleteTaskAt` | ToDoList/Views/ContentView.swift:178-184 | the handler traps exactly when `DeleteAtOffsets` does, and otherwise leaves the list and the store that `DeleteAtOffsets` gives; at a trap, the steps before it have already acted: the list keeps exactly the tasks whose id none of them read, and the store keeps exactly the records whose id none of them with a working fetch deleted (each of those deletions was saved) |
| `ContentView.DeleteAtOffsetsMissesShownRows` | ToDoList/Views/ContentView.swift:178-184 | deleting both rows of a fully shown two-task list traps at the second offset, after the first step has already deleted the first task; deleting the only shown row when a completed task is hidden deletes the hidden task |
| `ContentView.DeleteShownTasksAt` | ToDoList/Views/ContentView.swift:178-184 | resolving the offsets against the shown rows first deletes exactly the tasks with those rows' ids, keeps the order of the rest, and deletes the records with those ids except where that step's fetch throws |

## Findings

| source | as written | input that shows it | evidently intended | confidence | as-written member | corrected member |
|---|---|---|---|---|---|---|
| ToDoList/Views/ContentView.swift:178-184 | offsets taken from the rows of `filteredTasks` index the whole `taskManager.tasks`, which shrinks after each deletion | tasks [a, b] all shown, rows {0, 1} deleted: `a` goes, then index 1 is out of range and the app traps; tasks [a (completed), b] with completed hidden, row 0 (showing `b`) deleted: `a` goes and `b` stays | delete the tasks shown on the selected rows | high; not executed | `ContentView.DeleteAtOffsetsMissesShownRows` (about `ContentView.DeleteTaskAt`) | `ContentView.DeleteShownTasksAt` |
| ToDoList/DataBase/DataManager.swift:38 | `saveTask` stores every new record under a new `UUID()`, not the task's id | add a task, then delete it: `deleteTask(id:)` finds no record, and the next load brings the task back under another id | persist under `task.id`, so that a delete removes the record | high; not executed | `TaskManagement.AddedTaskSurvivesDeleteAndReload` (about `TaskManagement.TaskManager.AddTask`) | `TaskManagement.TaskManager.AddTaskUnderOwnId` with `TaskManagement.SavedUnderOwnIdStaysDeleted` |

## Left out

- SwiftUI views and layout, and every other part of `ContentView`, are not modelled. That includes `TaskEditView`'s rule that the title must not be empty.
- CoreData plumbing is not modelled: the persistent container, `loadPersistentStores` with its `fatalError`, and `context.save()` with `hasChanges`. Saving is not modelled as a step because it only commits what the context already holds, and its failure only prints.
- `print` diagnostics have no effect on state and are not modelled.
- `UUID()` and `Date()` are replaced by caller-supplied values, since they depend on randomness and the clock.
- `Date` is a whole number of seconds, not a floating-point interval.
- A failing CoreData fetch is the boolean `fetchFails`.
- `@MainActor`, `@Published`, `@AppStorage` and `UserDefaults` are not modelled. They are concurrency, change publishing and storage of settings, not state this model tracks.
- Localisation (`localized()`, `changeLanguage`) is not modelled. It calls into foreign code and changes no modelled state.
- ContentView.Lowercased: folds only ASCII letters and the basic Russian alphabet (including Ё), not full Unicode case mapping. Strings are sequences of Unicode scalars, while Swift compares `Character`s (grapheme clusters, with canonical equivalence), so `Contains` can differ from Swift on combining marks and precomposed letters.
- DataManager.RecordStore.SaveTask: the order of the record sequence stands for the order in which CoreData's fetch returns records. The request in `fetchTask` has no sort descriptors, so that order is not defined, and the model assumes that a new record comes last. `fetchTasks` does not sort either, so `AddedTaskSurvivesDeleteAndReload` places the revived task last only under this assumption.
- TaskManagement.TaskManager.AddTask: states that the list is sorted and a permutation, not the tie order among equal due dates. The library's sort is stood in for by a stable insertion sort (`SortByDueDate`).
- Priorities.FromRaw: compares strings per Unicode scalar, and so does `DataManager.Decode`. Swift's `String ==` uses canonical equivalence, and every priority raw string ends in "й", which also has a decomposed spelling ("и" followed by U+0306). A record that spells a priority in another normal form is dropped by the model but kept by the app. The category and theme raw strings have no such alternative spellings.
