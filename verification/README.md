# To-do list core in Dafny

A model of the task-management core of an Android to-do application
(Kotlin, Room, Jetpack Compose). The model covers:

- **Priorities** (`TaskEnums`): the `LOW`/`MEDIUM`/`HIGH` enum with stored
  value, display name and colour, and the total decoder `fromValue` that
  falls back to `MEDIUM`.
- **The task row** (`TaskEntity`): the `TaskEntity` record with its field
  defaults, including the colour `0xFF6200EE.toInt()` read as a signed 32-bit
  number (`Ints.ToInt32`).
- **The derivation pipeline** (`Text`, `TaskQuery`, `TaskStatistics`): the
  visible list (search by case-insensitive substring, raw-priority filter,
  show-completed switch, then a stable sort on completion, normalised
  priority and due date) and the statistics over all rows.
- **The ViewModel** (`ToDoViewModel`, over the store `TaskStore`): the staged
  input fields, the edit session, the list controls and the operations
  `addTask`, `startEditing`, `cancelEditing`, `toggleTaskDone`,
  `updateTask`, `deleteTask`, `setFilterPriority`, `setShowCompletedTasks`,
  `onSearchQueryChange` and `clearInputs`, each as a pure step on an `App`
  state (ViewModel plus store). The store is a map from id to task with an
  AUTOINCREMENT counter, so ids are never reused.
- **Schema migration** (`TaskDatabase`): the tables of versions 1, 2 and 3,
  the row transforms of `MIGRATION_1_2` and `MIGRATION_2_3`, the SQL
  statements they run (create, copy, drop, rename) over tables typed by
  schema version, and opening a database at a stored version.

The clock (`System.currentTimeMillis()`) is a parameter `now` of every
operation that reads it. Reactive recomputation (`StateFlow`, `combine`) is
modelled by the functions `ToDoViewModel.TaskList` and
`ToDoViewModel.Stats`, applied to the state after each step.

Details of the code that the model keeps as written:

- A due date equal to `Long.MAX_VALUE` sorts together with "no due date"
  (`TaskQuery.MaxDueDateTiesWithNone`); it does not sort before it.
- The priority filter compares the raw stored integer while the sort
  normalises it through `fromValue`, so a row stored with priority 7 sorts as
  `MEDIUM` but is hidden by every priority filter
  (`TaskQuery.OutOfRangePriorityHiddenByFilter`).
- `clearInputs` also clears the search query, so saving or cancelling an
  edit resets the search (`ToDoViewModel.ClearInputs`,
  `ToDoViewModel.AddedTaskVisible`).
- Migrated rows get the column default colour -10011977 (0xFF673AB7), not the
  entity default -10354450, and a migrated done row has no completion time, so
  "done exactly when completedAt is set" does not hold for migrated rows
  (`TaskDatabase.MigrationQuirks`).
- Updating a task whose id is not stored changes nothing; no error is
  reported (`TaskStore.Update`).

## Model

| member | source | states |
|---|---|---|
| TaskEnums.Find | app/src/main/java/com/example/todo/data/TaskEnums.kt:11 | `entries.find`: a hit is an entry carrying the value; a miss means no entry carries it |
| TaskEnums.FromValue | app/src/main/java/com/example/todo/data/TaskEnums.kt:10-12 | the decoded priority carries the stored value, or is MEDIUM for a value outside 0..2 |
| TaskEnums.FromValueKnown | app/src/main/java/com/example/todo/data/TaskEnums.kt:4-12 | 0, 1, 2 decode to LOW, MEDIUM, HIGH |
| TaskEnums.FromValueTotal | app/src/main/java/com/example/todo/data/TaskEnums.kt:11 | a value lies outside 0..2 exactly when it decodes to MEDIUM without being 1; inside, decoding keeps the value |
| TaskEnums.FromValueRoundTrip | app/src/main/java/com/example/todo/data/TaskEnums.kt:4-12 | decoding a priority's own value returns that priority |
| TaskEnums.NormaliseIdempotent | app/src/main/java/com/example/todo/data/TaskEnums.kt:4-12 | a normalised value lies in 0..2 and normalising twice equals normalising once |
| TaskEnums.PriorityTable | app/src/main/java/com/example/todo/data/TaskEnums.kt:5-7 | values are distinct and LOW < MEDIUM < HIGH; display names are "Low", "Medium", "High" |
| Ints.ToInt32 | app/src/main/java/com/example/todo/data/TaskEntity.kt:17 | `toInt()` yields a 32-bit value congruent to the input modulo 2^32, and keeps values already in range |
| TaskEntity.NewTask | app/src/main/java/com/example/todo/data/TaskEntity.kt:8-17 | a task built from a title alone has id 0 (the unsaved placeholder), empty description and phone, priority 1, no due date, not done, no completion time, colour -10354450, and is completion-consistent |
| TaskEntity.DefaultColorValue | app/src/main/java/com/example/todo/data/TaskEntity.kt:17 | the default colour is 0xFF6200EE - 2^32 = -10354450 |
| Text.Fold | app/src/main/java/com/example/todo/ToDoViewModel.kt:64-65 | case folding maps exactly the ASCII capitals to their lower-case letters |
| Text.StartsWithIgnoreCase | app/src/main/java/com/example/todo/ToDoViewModel.kt:64-65 | true exactly when the needle matches the start of the text up to case |
| Text.ContainsIgnoreCase | app/src/main/java/com/example/todo/ToDoViewModel.kt:64-65 | `contains(ignoreCase = true)` is true exactly when the needle occurs at some offset up to case |
| Text.ContainsEmpty | app/src/main/java/com/example/todo/ToDoViewModel.kt:64-65 | the empty query is contained in every text |
| Text.IsBlank | app/src/main/java/com/example/todo/ToDoViewModel.kt:105 | a title is blank exactly when every character is whitespace |
| TaskQuery.Matches | app/src/main/java/com/example/todo/ToDoViewModel.kt:63-69 | with an empty query, no priority filter and completed rows shown every row passes; a passing row is pending or completed rows are shown; a row stored with a priority outside 0..2 fails every priority filter |
| TaskQuery.FilterTasks | app/src/main/java/com/example/todo/ToDoViewModel.kt:63-69 | the filter never lengthens the list |
| TaskQuery.FilterCounts | app/src/main/java/com/example/todo/ToDoViewModel.kt:63-69 | each row occurs in the result as often as in the input if it passes all three conditions, else not at all |
| TaskQuery.FilterSingle | app/src/main/java/com/example/todo/ToDoViewModel.kt:63-69 | a one-row list is kept exactly when its row passes |
| TaskQuery.FilterAppend | app/src/main/java/com/example/todo/ToDoViewModel.kt:63-69 | filtering a concatenation is the concatenation of the filtered parts, so the kept rows stay in input order |
| TaskQuery.FilterIdempotent | app/src/main/java/com/example/todo/ToDoViewModel.kt:63-69 | filtering twice with the same settings equals filtering once |
| TaskQuery.FilterKeepsAll | app/src/main/java/com/example/todo/ToDoViewModel.kt:63-69 | a sequence whose rows all pass is kept whole |
| TaskQuery.KeyOf | app/src/main/java/com/example/todo/ToDoViewModel.kt:70-74 | the sort key keeps done; its rank is the stored priority when that lies in 0..2 and MEDIUM's value otherwise; a missing due date reads as Long.MAX_VALUE |
| TaskQuery.Precedes | app/src/main/java/com/example/todo/ToDoViewModel.kt:70-74 | keys compare lexicographically: a pending row first, then the higher rank, then the earlier due date |
| TaskQuery.PrecedesStrictTotalOrder | app/src/main/java/com/example/todo/ToDoViewModel.kt:70-74 | the three-key comparator is irreflexive, asymmetric, transitive, and total on distinct keys |
| TaskQuery.InsertPermutes | app/src/main/java/com/example/todo/ToDoViewModel.kt:70-74 | inserting into the order adds exactly the one row |
| TaskQuery.InsertSorted | app/src/main/java/com/example/todo/ToDoViewModel.kt:70-74 | inserting into a sorted sequence keeps it sorted |
| TaskQuery.InsertStable | app/src/main/java/com/example/todo/ToDoViewModel.kt:70-74 | an inserted row lands before the rows sharing its key, and the order of every key's rows is otherwise kept |
| TaskQuery.SortTasks | app/src/main/java/com/example/todo/ToDoViewModel.kt:70-74 | the sort is a permutation of its input, ordered: incomplete first, then higher normalised priority, then earlier due date (none = Long.MAX_VALUE) |
| TaskQuery.SortStable | app/src/main/java/com/example/todo/ToDoViewModel.kt:70-74 | for every key, the rows with that key appear in the output in their input order |
| TaskQuery.SortOfSorted | app/src/main/java/com/example/todo/ToDoViewModel.kt:70-74 | sorting an already sorted sequence returns it unchanged |
| TaskQuery.WithKeyMembers | app/src/main/java/com/example/todo/ToDoViewModel.kt:70-74 | the rows gathered for a key are rows of the input carrying that key |
| TaskQuery.SortedDeterminedByKeys | app/src/main/java/com/example/todo/ToDoViewModel.kt:70-74 | two sorted sequences that list every key's rows in the same order are equal |
| TaskQuery.SortIsTheStableSort | app/src/main/java/com/example/todo/ToDoViewModel.kt:70-74 | any sorted arrangement keeping each key's rows in input order is exactly the sort's output, so sortedness and stability pin the visible order down |
| TaskQuery.VisibleList | app/src/main/java/com/example/todo/ToDoViewModel.kt:63-74 | the visible list is sorted and holds each row as often as the input does if it matches, else not at all |
| TaskQuery.WithKeyAppend | app/src/main/java/com/example/todo/ToDoViewModel.kt:70-74 | gathering one key's rows distributes over concatenation |
| TaskQuery.FilterWithKey | app/src/main/java/com/example/todo/ToDoViewModel.kt:63-69 | the filter keeps every key's rows in their input order: gathering a key after filtering equals filtering after gathering |
| TaskQuery.VisibleListSpec | app/src/main/java/com/example/todo/ToDoViewModel.kt:63-74 | the visible list is never longer than the input; a row is visible iff it is an input row that matches; for every key, the visible rows with that key are exactly that key's matching input rows in input order |
| TaskQuery.VisibleListIdempotent | app/src/main/java/com/example/todo/ToDoViewModel.kt:63-74 | deriving the visible list from the visible list with the same settings gives it back |
| TaskQuery.EmptyQueryMatchesAll | app/src/main/java/com/example/todo/ToDoViewModel.kt:64-69 | with an empty query, no filter and completed rows shown, every row matches |
| TaskQuery.OutOfRangePriorityHiddenByFilter | app/src/main/java/com/example/todo/ToDoViewModel.kt:66-72 | a row stored with a priority outside 0..2 fails every priority filter but sorts with MEDIUM rank |
| TaskQuery.MaxDueDateTiesWithNone | app/src/main/java/com/example/todo/ToDoViewModel.kt:73 | a due date of Long.MAX_VALUE has the same sort key as no due date |
| TaskStatistics.Count | app/src/main/java/com/example/todo/ToDoViewModel.kt:92-97 | a count never exceeds the number of rows |
| TaskStatistics.CountSingleton | app/src/main/java/com/example/todo/ToDoViewModel.kt:92-97 | no rows count zero; one row counts one exactly when it satisfies the condition |
| TaskStatistics.CountAppend | app/src/main/java/com/example/todo/ToDoViewModel.kt:92-97 | counting over a concatenation adds the two counts |
| TaskStatistics.CountComplement | app/src/main/java/com/example/todo/ToDoViewModel.kt:92-93 | rows counted by a predicate and by its negation add up to all rows |
| TaskStatistics.CountMonotone | app/src/main/java/com/example/todo/ToDoViewModel.kt:94-97 | a predicate implied by another counts at least as many rows |
| TaskStatistics.CountPermutation | app/src/main/java/com/example/todo/ToDoViewModel.kt:92-97 | a count depends only on the multiset of rows |
| TaskStatistics.ComputeStats | app/src/main/java/com/example/todo/ToDoViewModel.kt:90-98 | total = number of rows = completed + pending; overdue <= pending; highPriority <= pending; each count is the number of rows satisfying its condition |
| TaskStatistics.StatsEmpty | app/src/main/java/com/example/todo/ToDoViewModel.kt:87 | no rows give TaskStats() |
| TaskStatistics.StatsAppendRow | app/src/main/java/com/example/todo/ToDoViewModel.kt:90-98 | one more row adds one to total and one to each count whose condition it meets: done; not done; not done with a due date before now; not done with stored priority 2 |
| TaskStatistics.OddPriorityNotHigh | app/src/main/java/com/example/todo/ToDoViewModel.kt:97 | a pending row stored with a priority other than 2 (7, say) counts as pending but not as high priority |
| TaskStatistics.StatsOrderIndependent | app/src/main/java/com/example/todo/ToDoViewModel.kt:89-98 | any reordering of the rows gives the same statistics |
| TaskStore.Insert | app/src/main/java/com/example/todo/ToDoViewModel.kt:125 | `insertTask` of a task with the unsaved id 0 (`@PrimaryKey(autoGenerate = true)`, TaskEntity.kt:8) stores the task under a fresh id larger than every stored id, adds exactly one row and keeps the store valid |
| TaskStore.Update | app/src/main/java/com/example/todo/ToDoViewModel.kt:123 | an update replaces the row with the task's id, changes no other row, adds or removes none |
| TaskStore.Delete | app/src/main/java/com/example/todo/ToDoViewModel.kt:164 | a delete removes exactly the task's id and changes no other row |
| TaskStore.IdsNeverReused | app/src/main/java/com/example/todo/data/TaskDatabase.kt:25 | with the AUTOINCREMENT id column, after a delete, the next insert never hands out the deleted id |
| TaskStore.RowsBelowLength | app/src/main/java/com/example/todo/ToDoViewModel.kt:54 | the listing has one row per stored id in range |
| TaskStore.RowsBelowSound | app/src/main/java/com/example/todo/ToDoViewModel.kt:54 | every listed row is the row stored under its id, and ids strictly ascend |
| TaskStore.RowsBelowComplete | app/src/main/java/com/example/todo/ToDoViewModel.kt:54 | every stored row with an id in range is listed |
| TaskStore.Rows | app/src/main/java/com/example/todo/ToDoViewModel.kt:54 | reading a valid store lists each stored row once, in ascending id order, and nothing else |
| TaskStore.EmptyStoreStart | app/src/main/java/com/example/todo/data/TaskEntity.kt:8 | the empty table is valid and reads as no rows, and the first insert into it gets id 1 and reads back as that one row |
| ToDoViewModel.TaskList | app/src/main/java/com/example/todo/ToDoViewModel.kt:57-74 | the visible list is sorted, holds exactly the rows read from the store that match the current query, filter and show-completed switch, and lists rows with equal sort keys in the order the store returns them |
| ToDoViewModel.Stats | app/src/main/java/com/example/todo/ToDoViewModel.kt:82-98 | each field is the number of stored rows meeting its condition (done; not done; not done with a due date before now; not done with stored priority 2); for a valid store the total is the number of stored rows |
| ToDoViewModel.AscendingIdsDistinct | app/src/main/java/com/example/todo/ToDoViewModel.kt:54 | rows listed in ascending id order contain no duplicates |
| ToDoViewModel.TaskListSpec | app/src/main/java/com/example/todo/ToDoViewModel.kt:57-74 | in every state the visible list holds exactly the stored rows matching the current query, filter and show-completed switch, each once, sorted |
| ToDoViewModel.StatsOverAllRows | app/src/main/java/com/example/todo/ToDoViewModel.kt:82-98 | the statistics count every stored row and do not depend on the query, filter, show-completed switch or inputs |
| ToDoViewModel.ClearInputs | app/src/main/java/com/example/todo/ToDoViewModel.kt:176-184 | clearing resets every input, ends the edit session and clears the search query, keeping only the filter and the show-completed switch |
| ToDoViewModel.OnSearchQueryChange | app/src/main/java/com/example/todo/ToDoViewModel.kt:42-45 | only the search query changes, to the given text |
| ToDoViewModel.SetFilterPriority | app/src/main/java/com/example/todo/ToDoViewModel.kt:168-170 | the new filter is set exactly when a priority is given that differs from the current filter, and then it is that priority; nothing else changes |
| ToDoViewModel.SelectFilterTwice | app/src/main/java/com/example/todo/ToDoViewModel.kt:168-170 | selecting the same choice twice restores the state iff the filter was absent or already that choice |
| ToDoViewModel.SetShowCompletedTasks | app/src/main/java/com/example/todo/ToDoViewModel.kt:172-174 | only the show-completed switch changes, to the given value |
| ToDoViewModel.HideCompleted | app/src/main/java/com/example/todo/ToDoViewModel.kt:57-98 | hiding completed tasks shows exactly the previously visible rows that are not done, and leaves the statistics unchanged |
| ToDoViewModel.StartEditing | app/src/main/java/com/example/todo/ToDoViewModel.kt:132-139 | the task becomes the edit target and its fields are staged, the priority decoded through fromValue; list controls unchanged |
| ToDoViewModel.CancelEditing | app/src/main/java/com/example/todo/ToDoViewModel.kt:141-143 | cancelling writes nothing, ends the edit session and performs the clearInputs reset |
| ToDoViewModel.StagedTask | app/src/main/java/com/example/todo/ToDoViewModel.kt:107-120 | the written task carries the staged title, description, phone, priority (0..2) and due date; a copy of the edit target keeps its id, done, createdAt, completedAt and colour; a new task has id 0, is not done, is created at now, has no completion time and the default colour |
| ToDoViewModel.AddTask | app/src/main/java/com/example/todo/ToDoViewModel.kt:104-130 | blank title: nothing changes; while editing: the edited id gets the staged fields and keeps done, createdAt, completedAt and colour, no other row changes; otherwise one fresh-id row, not done, created at now, no completion time, default colour; after a write the inputs are cleared |
| ToDoViewModel.EditRoundTrip | app/src/main/java/com/example/todo/ToDoViewModel.kt:104-139 | editing a stored task and saving unchanged inputs writes it back with only its priority normalised, leaving the store untouched when the priority was already 0..2 |
| ToDoViewModel.AddedTaskVisible | app/src/main/java/com/example/todo/ToDoViewModel.kt:104-130 | with no priority filter, a newly added task is in the visible list, since saving clears the search query |
| ToDoViewModel.Toggled | app/src/main/java/com/example/todo/ToDoViewModel.kt:155-160 | the toggled task has done negated, completedAt = now if it became done and none otherwise, every other field unchanged, and is completion-consistent |
| ToDoViewModel.ToggleTwice | app/src/main/java/com/example/todo/ToDoViewModel.kt:155-160 | toggling twice restores everything but completedAt, which becomes the second toggle's time for a done task and none otherwise |
| ToDoViewModel.ToggleTaskDone | app/src/main/java/com/example/todo/ToDoViewModel.kt:155-160 | the stored row with the task's id becomes the toggled task; no other row and no ViewModel field changes |
| ToDoViewModel.UpdateTask | app/src/main/java/com/example/todo/ToDoViewModel.kt:149-153 | the stored row with the task's id becomes the task; no other row changes |
| ToDoViewModel.DeleteTask | app/src/main/java/com/example/todo/ToDoViewModel.kt:162-166 | the task's id is no longer stored, no other id is removed, every remaining row is unchanged, and no visible row carries the id |
| ToDoViewModel.WritesKeepConsistency | app/src/main/java/com/example/todo/ToDoViewModel.kt:104-160 | add, toggle, delete and (for a consistent task) update keep every row's completedAt set exactly when it is done |
| ToDoViewModel.TwoTaskScenario | app/src/main/java/com/example/todo/ToDoViewModel.kt:57-98 | a pending HIGH task is listed before a done LOW task, only the first is listed with completed hidden, and the statistics are {2, 1, 1, overdue iff due before now, 1} |
| TaskDatabase.MigrateRow12 | app/src/main/java/com/example/todo/data/TaskDatabase.kt:23-44 | v1 to v2 keeps id, title, phoneNumber and done and fills description '', category 'Personal', priority 1, no due date, no completion time, colour -10011977, createdAt = migration time |
| TaskDatabase.MigrateRow23 | app/src/main/java/com/example/todo/data/TaskDatabase.kt:74-78 | v2 to v3 copies every column but category verbatim |
| TaskDatabase.OnlyCategoryDropped | app/src/main/java/com/example/todo/data/TaskDatabase.kt:73-78 | rows differing only in category migrate to the same v3 row |
| TaskDatabase.MigrateRow13 | app/src/main/java/com/example/todo/data/TaskDatabase.kt:40-78 | a v1 row migrated to v3 is exactly {same id, title, phoneNumber, done; description ""; priority 1; no due date; no completion time; colour -10011977; createdAt = migration time} |
| TaskDatabase.MigrationQuirks | app/src/main/java/com/example/todo/data/TaskDatabase.kt:34-42 | migrated rows do not get the entity default colour, and a migrated done row has no completion time |
| TaskDatabase.MigrateRows12 | app/src/main/java/com/example/todo/data/TaskDatabase.kt:40-44 | the copy keeps the row count and maps every row in place |
| TaskDatabase.MigrateRows23 | app/src/main/java/com/example/todo/data/TaskDatabase.kt:74-78 | the copy keeps the row count and maps every row in place |
| TaskDatabase.SharedMigrationTime | app/src/main/java/com/example/todo/data/TaskDatabase.kt:42 | every row copied by one run of v1 to v2 gets the same creation time |
| TaskDatabase.CreateTable | app/src/main/java/com/example/todo/data/TaskDatabase.kt:23-37 | CREATE TABLE succeeds exactly when the name is free, adding the empty table |
| TaskDatabase.CopyRows12 | app/src/main/java/com/example/todo/data/TaskDatabase.kt:40-44 | the 1 to 2 copy succeeds exactly when tasks is a v1 table and tasks_new a v2 table; it keeps tasks_new's rows and appends one migrated row per tasks row in order, changing no other table |
| TaskDatabase.CopyRows23 | app/src/main/java/com/example/todo/data/TaskDatabase.kt:73-78 | the 2 to 3 copy succeeds exactly when tasks is a v2 table and tasks_new a v3 table; it keeps tasks_new's rows and appends each tasks row without category in order, changing no other table |
| TaskDatabase.DropTable | app/src/main/java/com/example/todo/data/TaskDatabase.kt:47 | DROP TABLE succeeds exactly when the table exists and removes only it |
| TaskDatabase.RenameTable | app/src/main/java/com/example/todo/data/TaskDatabase.kt:50 | RENAME succeeds exactly when the source exists and the target does not, moving the table and touching no other |
| TaskDatabase.Migration12 | app/src/main/java/com/example/todo/data/TaskDatabase.kt:20-52 | MIGRATION_1_2 succeeds iff tasks is a v1 table and tasks_new is absent, and then leaves tasks holding the migrated rows in order, other tables untouched |
| TaskDatabase.Migration23 | app/src/main/java/com/example/todo/data/TaskDatabase.kt:55-86 | MIGRATION_2_3 succeeds iff tasks is a v2 table and tasks_new is absent, and then leaves tasks holding the rows without category in order, other tables untouched |
| TaskDatabase.Migration13 | app/src/main/java/com/example/todo/data/TaskDatabase.kt:20-95 | the two migrations chained succeed iff tasks is a v1 table and tasks_new is absent, and then leave tasks holding every old row carried to v3 in order |
| TaskDatabase.OpenFromVersion1 | app/src/main/java/com/example/todo/data/TaskDatabase.kt:10-95 | opening a v1 database runs 1 to 2 then 2 to 3 and leaves exactly one table, tasks, with one v3 row per old row mapped field by field |
| TaskDatabase.Open | app/src/main/java/com/example/todo/data/TaskDatabase.kt:10-95 | a fresh database (version 0) gets an empty v3 tasks table; version 3 opens as is; versions 1 and 2 succeed exactly when their migrations do, with the migrated tasks table; any other version fails with no migration path |
| TaskDatabase.OpenFresh | app/src/main/java/com/example/todo/data/TaskDatabase.kt:10 | a fresh empty database opens with one empty v3 tasks table |

## Left out

- The Compose UI (`ToDoApp`, `TaskCard`, `SearchBar`, `FilterChipsRow`, `EmptyState`, the bottom sheet, the statistics dialog, the splash screen, colours): presentation only.
- The SMS action and the permission flow: platform telephony calls.
- `formatDate`: locale-dependent date formatting.
- The completion rate in the statistics dialog: floating-point division.
- `toggleTheme` and `isDarkMode`: presentation state.
- Coroutines and flows (`viewModelScope.launch`, `StateFlow`, `combine`, `stateIn`): mutations are sequential steps and derived outputs are recomputed after each; the asynchronous read of `editingTask` inside `launch` is not modelled.
- `TaskDao` is not part of this model: the store is a map from id to task; `getAllTasks` is read in ascending id order (`TaskStore.Rows`). The statistics do not depend on that order (`TaskStatistics.StatsOrderIndependent`), but the visible list does: the sort is stable, so rows whose completion, normalised priority and due date all agree appear in the order `getAllTasks` returns them, and a DAO query with another order would list such ties differently. An update of a missing id changes nothing; transactions and atomicity of the migration are not modelled.
- `getDatabase`'s `@Volatile`/`synchronized` singleton: concurrency.
- `TaskDatabase.Open`: a stored version of 0 stands for a database file that did not exist, for which Room creates the version 3 table if it is missing; the SQL Room generates for this, its bookkeeping tables and SQLite's `sqlite_sequence` are not shown in the source and are not modelled. For versions 1 and 2 its success conditions inherit the typed-table reading of the migrations below.
- `TaskDatabase.CopyRows12`, `TaskDatabase.CopyRows23`: tables are typed by schema version, so a copy succeeds only from the table version the migration expects. SQLite checks only that the named columns exist, so the real copy of 1 -> 2 would also succeed from a version 2 or 3 `tasks`, and that of 2 -> 3 from a version 3 `tasks`; column constraints (NOT NULL, the primary key) are not checked by the model either.
- `TaskDatabase.Migration12`, `TaskDatabase.Migration23`, `TaskDatabase.Migration13`: the "only if" half of their success conditions rests on the typed tables above; on SQLite a migration could also succeed from a later-version `tasks` table. The "if" half and the result on success do not depend on it, nor does the failure when `tasks_new` already exists or `tasks` is missing.
- The version 1 schema is not shown; `TaskDatabase.RowV1` holds only the four columns the migration reads, and `done` is a boolean rather than an SQLite integer.
- `TaskStatistics.ComputeStats`: uses one `now` for the whole count, whereas the source reads the clock again for every row.
- `Text.ContainsIgnoreCase`: folds only ASCII letters; Kotlin also folds non-ASCII letters.
- Integer widths: ids, stored priorities and the statistics counts are unbounded; Kotlin's 32-bit overflow of these is not modelled. Timestamps are 64-bit and the colour 32-bit.
- `TaskPriority.color`: modelled as data (`Priority.Color`); no logic reads it.
