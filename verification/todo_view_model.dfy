/** `ToDoViewModel`: the staged input fields, the edit session, the three
    list controls, and the operations that change them or write to the
    store. Each operation is a step from one `App` state to the next; the
    visible list and the statistics are recomputed from the state after
    every step. */
module ToDoViewModel {

  import opened Wrappers
  import opened Ints
  import opened TaskEnums
  import opened TaskEntity
  import opened Text
  import opened TaskQuery
  import opened TaskStatistics
  import opened TaskStore

  /** The ViewModel's own state: the staged input fields, the task being
      edited (none when idle), and the controls of the visible list. */
  datatype ViewModel = ViewModel(
    taskText: string,
    descriptionText: string,
    phoneText: string,
    selectedPriority: Priority,
    selectedDueDate: Option<Int64>,
    editingTask: Option<Task>,
    searchQuery: string,
    filterPriority: Option<Priority>,
    showCompletedTasks: bool
  )

  /** The state of a freshly created ViewModel. */
  const INITIAL_VIEW_MODEL: ViewModel := ViewModel("", "", "", Medium, None, None, "", None, true)

  /** The ViewModel together with the database it writes to. */
  datatype App = App(vm: ViewModel, store: Store)

  // ---------------------------------------------------------------------
  // Derived outputs
  // ---------------------------------------------------------------------

  /** `taskList`: the visible list for the current rows and controls. It
      is sorted and holds exactly the rows read from the store that match
      the search query, the priority filter and the show-completed
      switch. Rows whose sort keys are equal appear in the order they are
      read from the store. */
  function TaskList(a: App): (r: seq<Task>)
    ensures Sorted(r)
    ensures forall t :: t in r <==>
      (t in Rows(a.store) && Matches(t, a.vm.searchQuery, a.vm.filterPriority, a.vm.showCompletedTasks))
    ensures forall k ::
      WithKey(r, k) == FilterTasks(WithKey(Rows(a.store), k), a.vm.searchQuery, a.vm.filterPriority, a.vm.showCompletedTasks)
  {
    VisibleListSpec(Rows(a.store), a.vm.searchQuery, a.vm.filterPriority, a.vm.showCompletedTasks, SortKey(false, 0, 0));
    forall k
      ensures WithKey(VisibleList(Rows(a.store), a.vm.searchQuery, a.vm.filterPriority, a.vm.showCompletedTasks), k)
           == FilterTasks(WithKey(Rows(a.store), k), a.vm.searchQuery, a.vm.filterPriority, a.vm.showCompletedTasks)
    {
      VisibleListSpec(Rows(a.store), a.vm.searchQuery, a.vm.filterPriority, a.vm.showCompletedTasks, k);
    }
    VisibleList(Rows(a.store), a.vm.searchQuery, a.vm.filterPriority, a.vm.showCompletedTasks)
  }

  /** `taskStats`: the statistics of all rows at time `now`, whatever the
      list controls say: the total is the number of stored rows, split into
      completed and pending, with the overdue and high-priority rows among
      the pending ones. */
  function Stats(a: App, now: Int64): (st: TaskStats)
    ensures Valid(a.store) ==> st.total == |a.store.rows|
    ensures st.total == st.completed + st.pending
    ensures st.overdue <= st.pending && st.highPriority <= st.pending
    ensures st.completed == Count(Rows(a.store), IsDone)
    ensures st.pending == Count(Rows(a.store), IsPending)
    ensures st.overdue == Count(Rows(a.store), t => IsOverdue(t, now))
    ensures st.highPriority == Count(Rows(a.store), IsPendingHigh)
  {
    ComputeStats(Rows(a.store), now)
  }

  /** A sequence with strictly ascending ids holds each row at most once. */
  lemma {:induction false} AscendingIdsDistinct(s: seq<Task>)
    requires forall i, j :: 0 <= i < j < |s| ==> s[i].id < s[j].id
    ensures forall t :: multiset(s)[t] <= 1
  {
    if |s| > 0 {
      AscendingIdsDistinct(s[1..]);
      assert s == [s[0]] + s[1..];
      assert forall j :: 0 <= j < |s[1..]| ==> s[1..][j].id > s[0].id;
      assert s[0] !in s[1..];
    }
  }

  /** In every state, the visible list holds exactly the stored rows that
      match the current search query, priority filter and show-completed
      switch, each once, in sorted order. */
  lemma TaskListSpec(a: App)
    requires Valid(a.store)
    ensures forall t :: t in TaskList(a) <==>
      t.id in a.store.rows && a.store.rows[t.id] == t
      && Matches(t, a.vm.searchQuery, a.vm.filterPriority, a.vm.showCompletedTasks)
    ensures forall t :: multiset(TaskList(a))[t] <= 1
    ensures Sorted(TaskList(a)) && |TaskList(a)| <= |a.store.rows|
  {
    AscendingIdsDistinct(Rows(a.store));
    VisibleListSpec(Rows(a.store), a.vm.searchQuery, a.vm.filterPriority, a.vm.showCompletedTasks, SortKey(false, 0, 0));
  }

  /** The statistics count every stored row, and no ViewModel field
      (search query, priority filter, show-completed, staged inputs) can
      change them. */
  lemma StatsOverAllRows(a: App, vm: ViewModel, now: Int64)
    requires Valid(a.store)
    ensures Stats(a, now).total == |a.store.rows|
    ensures Stats(a, now) == Stats(App(vm, a.store), now)
  {
  }

  // ---------------------------------------------------------------------
  // Input and list controls
  // ---------------------------------------------------------------------

  /** `clearInputs`: resets every staged field, ends the edit session and
      ALSO clears the search query; the priority filter and the
      show-completed switch are kept. */
  function ClearInputs(vm: ViewModel): (r: ViewModel)
    ensures r.editingTask == None && r.searchQuery == ""
    ensures r == INITIAL_VIEW_MODEL.(filterPriority := vm.filterPriority, showCompletedTasks := vm.showCompletedTasks)
  {
    vm.(searchQuery := "", taskText := "", descriptionText := "", phoneText := "",
        selectedPriority := Medium, selectedDueDate := None, editingTask := None)
  }

  /** `onSearchQueryChange`. */
  function OnSearchQueryChange(vm: ViewModel, query: string): (r: ViewModel)
    ensures r.searchQuery == query && r.(searchQuery := vm.searchQuery) == vm
  {
    vm.(searchQuery := query)
  }

  /** `setFilterPriority`: choosing the active filter again clears it;
      any other choice replaces it. */
  function SetFilterPriority(vm: ViewModel, p: Option<Priority>): (r: ViewModel)
    ensures r.filterPriority.Some? <==> p.Some? && vm.filterPriority != p
    ensures r.filterPriority.Some? ==> r.filterPriority == p
    ensures r.(filterPriority := vm.filterPriority) == vm
  {
    vm.(filterPriority := if vm.filterPriority == p then None else p)
  }

  /** Choosing the same priority twice restores the filter exactly when it
      was absent or already that priority; in particular from no filter it
      returns to no filter. */
  lemma SelectFilterTwice(vm: ViewModel, p: Option<Priority>)
    ensures SetFilterPriority(SetFilterPriority(vm, p), p) == vm <==> vm.filterPriority == None || vm.filterPriority == p
  {
  }

  /** `setShowCompletedTasks`. */
  function SetShowCompletedTasks(vm: ViewModel, show: bool): (r: ViewModel)
    ensures r.showCompletedTasks == show && r.(showCompletedTasks := vm.showCompletedTasks) == vm
  {
    vm.(showCompletedTasks := show)
  }

  /** Hiding completed tasks leaves exactly the visible rows that are not
      done, and leaves the statistics alone. */
  lemma HideCompleted(a: App, now: Int64)
    ensures var b := App(SetShowCompletedTasks(a.vm, false), a.store);
      && (forall t :: t in TaskList(b) <==> t in TaskList(a) && !t.done)
      && Stats(b, now) == Stats(a, now)
  {
  }

  // ---------------------------------------------------------------------
  // The edit session
  // ---------------------------------------------------------------------

  predicate Editing(vm: ViewModel) {
    vm.editingTask.Some?
  }

  /** `startEditing`: stages the task's fields, with its stored priority
      normalised through `FromValue`, and makes it the edit target. */
  function StartEditing(vm: ViewModel, t: Task): (r: ViewModel)
    ensures r.editingTask == Some(t)
    ensures r.taskText == t.title && r.descriptionText == t.description && r.phoneText == t.phoneNumber
    ensures r.selectedPriority.Value() == t.priority || (r.selectedPriority == Medium && t.priority !in {0, 1, 2})
    ensures r.selectedDueDate == t.dueDate
    ensures r.searchQuery == vm.searchQuery && r.filterPriority == vm.filterPriority
    ensures r.showCompletedTasks == vm.showCompletedTasks
  {
    vm.(editingTask := Some(t), taskText := t.title, descriptionText := t.description,
        phoneText := t.phoneNumber, selectedPriority := FromValue(t.priority),
        selectedDueDate := t.dueDate)
  }

  /** `cancelEditing`: the reset of `clearInputs`, with nothing written. */
  function CancelEditing(a: App): (r: App)
    ensures r.store == a.store && !Editing(r.vm)
    ensures r.vm == ClearInputs(a.vm)
  {
    App(ClearInputs(a.vm), a.store)
  }

  /** The row `addTask` writes: a copy of the edit target with the staged
      fields, or a new task made from them. Either way it carries the
      staged title, description, phone number, priority (in 0..2) and due
      date; a copy keeps the target's id, completion, creation time and
      colour, and a new task is unsaved, pending, created at `now` and
      drawn in the default colour. */
  function StagedTask(vm: ViewModel, now: Int64): (t: Task)
    ensures t.title == vm.taskText && t.description == vm.descriptionText && t.phoneNumber == vm.phoneText
    ensures t.priority == vm.selectedPriority.Value() && 0 <= t.priority <= 2
    ensures t.dueDate == vm.selectedDueDate
    ensures vm.editingTask.Some? ==>
      var e := vm.editingTask.value;
      t.id == e.id && t.done == e.done && t.createdAt == e.createdAt
      && t.completedAt == e.completedAt && t.color == e.color
    ensures vm.editingTask.None? ==>
      t.id == UNSAVED_ID && !t.done && t.createdAt == now && t.completedAt == None && t.color == DEFAULT_COLOR
  {
    match vm.editingTask
    case Some(e) =>
      e.(title := vm.taskText, description := vm.descriptionText, phoneNumber := vm.phoneText,
         priority := vm.selectedPriority.Value(), dueDate := vm.selectedDueDate)
    case None =>
      NewTask(vm.taskText, now).(description := vm.descriptionText, phoneNumber := vm.phoneText,
                                 priority := vm.selectedPriority.Value(), dueDate := vm.selectedDueDate)
  }

  /** `addTask`: does nothing for a blank title; otherwise updates the edit
      target or inserts a new task, then clears the inputs. */
  function AddTask(a: App, now: Int64): (r: App)
    requires Valid(a.store)
    ensures Valid(r.store)
    ensures IsBlank(a.vm.taskText) ==> r == a
    ensures !IsBlank(a.vm.taskText) ==> r.vm == ClearInputs(a.vm) && !Editing(r.vm)
    // While editing: the edit target's row gets the staged fields and keeps
    // its id, completion, creation time and colour; no other row changes.
    ensures !IsBlank(a.vm.taskText) && Editing(a.vm) ==>
      var e := a.vm.editingTask.value;
      && r.store.rows.Keys == a.store.rows.Keys
      && r.store.nextId == a.store.nextId
      && (e.id in a.store.rows ==>
            r.store.rows[e.id] == Task(e.id, a.vm.taskText, a.vm.descriptionText, a.vm.phoneText,
                                       a.vm.selectedPriority.Value(), a.vm.selectedDueDate,
                                       e.done, e.createdAt, e.completedAt, e.color))
      && (forall id :: id in a.store.rows && id != e.id ==> r.store.rows[id] == a.store.rows[id])
    // Otherwise: one new, not-done row with a fresh id and creation time
    // `now`; no existing row changes.
    ensures !IsBlank(a.vm.taskText) && !Editing(a.vm) ==>
      var id := a.store.nextId;
      && id !in a.store.rows
      && r.store.rows == a.store.rows[id := Task(id, a.vm.taskText, a.vm.descriptionText, a.vm.phoneText,
                                                  a.vm.selectedPriority.Value(), a.vm.selectedDueDate,
                                                  false, now, None, DEFAULT_COLOR)]
  {
    if IsBlank(a.vm.taskText) then a
    else
      var t := StagedTask(a.vm, now);
      var store := if Editing(a.vm) then Update(a.store, t) else Insert(a.store, t).0;
      App(ClearInputs(a.vm), store)
  }

  /** Editing a stored task and saving it with the inputs untouched writes
      the task back unchanged except that its priority is normalised; a task
      whose priority is already 0..2 leaves the store exactly as it was. */
  lemma EditRoundTrip(a: App, t: Task, now: Int64)
    requires Valid(a.store) && !IsBlank(t.title)
    requires t.id in a.store.rows && a.store.rows[t.id] == t
    ensures var r := AddTask(App(StartEditing(a.vm, t), a.store), now);
      && r.vm == ClearInputs(a.vm)
      && r.store.rows == a.store.rows[t.id := t.(priority := FromValue(t.priority).Value())]
      && (t.priority in {0, 1, 2} ==> r.store == a.store)
  {
    var r := AddTask(App(StartEditing(a.vm, t), a.store), now);
    assert r.store.rows == a.store.rows[t.id := t.(priority := FromValue(t.priority).Value())];
    if t.priority in {0, 1, 2} {
      assert a.store.rows[t.id := t] == a.store.rows;
    }
  }

  /** A task added from the idle state shows up in the visible list when
      no priority filter is set: saving clears the search query, and a new
      task is never done. */
  lemma AddedTaskVisible(a: App, now: Int64)
    requires Valid(a.store) && !IsBlank(a.vm.taskText) && !Editing(a.vm)
    requires a.vm.filterPriority == None
    ensures var r := AddTask(a, now);
      && r.vm.searchQuery == ""
      && r.store.rows[a.store.nextId] in TaskList(r)
  {
    var r := AddTask(a, now);
    var t := r.store.rows[a.store.nextId];
    assert t in Rows(r.store);
    EmptyQueryMatchesAll(t);
  }

  // ---------------------------------------------------------------------
  // Writes outside the edit session
  // ---------------------------------------------------------------------

  /** The task `toggleTaskDone` writes: completion flipped, completion time
      set to `now` when it becomes done and cleared when it becomes undone,
      every other field as given. */
  function Toggled(t: Task, now: Int64): (r: Task)
    ensures r.done == !t.done
    ensures r.completedAt == if r.done then Some(now) else None
    ensures r.(done := t.done, completedAt := t.completedAt) == t
    ensures CompletionConsistent(r)
  {
    t.(done := !t.done, completedAt := if !t.done then Some(now) else None)
  }

  /** Toggling twice restores the task except that a done task loses its
      old completion time in favour of the second toggle's `now`. */
  lemma ToggleTwice(t: Task, now1: Int64, now2: Int64)
    ensures Toggled(Toggled(t, now1), now2) == t.(completedAt := if t.done then Some(now2) else None)
  {
  }

  /** `toggleTaskDone`: writes the toggled task through the store. */
  function ToggleTaskDone(a: App, t: Task, now: Int64): (r: App)
    requires Valid(a.store)
    ensures Valid(r.store) && r.vm == a.vm
    ensures r.store.rows.Keys == a.store.rows.Keys
    ensures t.id in a.store.rows ==> r.store.rows[t.id] == Toggled(t, now)
    ensures forall id :: id in a.store.rows && id != t.id ==> r.store.rows[id] == a.store.rows[id]
  {
    App(a.vm, Update(a.store, Toggled(t, now)))
  }

  /** `updateTask`: writes the given task over the row with its id. */
  function UpdateTask(a: App, t: Task): (r: App)
    requires Valid(a.store)
    ensures Valid(r.store) && r.vm == a.vm
    ensures r.store.rows.Keys == a.store.rows.Keys
    ensures t.id in a.store.rows ==> r.store.rows[t.id] == t
    ensures forall id :: id in a.store.rows && id != t.id ==> r.store.rows[id] == a.store.rows[id]
  {
    App(a.vm, Update(a.store, t))
  }

  /** `deleteTask`: removes the row with the task's id. */
  function DeleteTask(a: App, t: Task): (r: App)
    requires Valid(a.store)
    ensures Valid(r.store) && r.vm == a.vm
    ensures r.store.rows.Keys == a.store.rows.Keys - {t.id}
    ensures forall id :: id in r.store.rows ==> r.store.rows[id] == a.store.rows[id]
    ensures forall u :: u in TaskList(r) ==> u.id != t.id
  {
    App(a.vm, Delete(a.store, t))
  }

  // ---------------------------------------------------------------------
  // Completion consistency
  // ---------------------------------------------------------------------

  ghost predicate AllConsistent(s: Store) {
    forall id :: id in s.rows ==> CompletionConsistent(s.rows[id])
  }

  /** The ViewModel's own writes keep every row's completion time in step
      with its `done` flag, provided the task being edited or passed to
      `updateTask` is itself consistent. */
  lemma WritesKeepConsistency(a: App, t: Task, now: Int64)
    requires Valid(a.store) && AllConsistent(a.store)
    requires a.vm.editingTask.Some? ==> CompletionConsistent(a.vm.editingTask.value)
    ensures AllConsistent(AddTask(a, now).store)
    ensures AllConsistent(ToggleTaskDone(a, t, now).store)
    ensures AllConsistent(DeleteTask(a, t).store)
    ensures CompletionConsistent(t) ==> AllConsistent(UpdateTask(a, t).store)
  {
  }

  // ---------------------------------------------------------------------
  // A worked example
  // ---------------------------------------------------------------------

  /** Task A (high priority, due at `t0`, pending) and task B (low
      priority, done): A is listed first; hiding completed tasks lists only
      A; the statistics count both rows either way. */
  lemma TwoTaskScenario(t0: Int64, created: Int64, now: Int64)
    ensures var a := Task(1, "A", "", "", High.Value(), Some(t0), false, created, None, DEFAULT_COLOR);
      var b := Task(2, "B", "", "", Low.Value(), None, true, created, Some(created), DEFAULT_COLOR);
      && VisibleList([a, b], "", None, true) == [a, b]
      && VisibleList([a, b], "", None, false) == [a]
      && ComputeStats([a, b], now) == TaskStats(2, 1, 1, if t0 < now then 1 else 0, 1)
  {
    var a := Task(1, "A", "", "", High.Value(), Some(t0), false, created, None, DEFAULT_COLOR);
    var b := Task(2, "B", "", "", Low.Value(), None, true, created, Some(created), DEFAULT_COLOR);
    EmptyQueryMatchesAll(a);
    EmptyQueryMatchesAll(b);
    assert [a, b][1..] == [b];
    assert FilterTasks([a, b], "", None, true) == [a, b];
    assert FilterTasks([a, b], "", None, false) == [a];
    assert SortTasks([b]) == [b];
    assert SortTasks([a]) == [a];
    assert VisibleList([a, b], "", None, true) == [a, b];
    assert VisibleList([a, b], "", None, false) == [a];
    assert Count([b], IsDone) == 1 && Count([b], IsPending) == 0;
    assert Count([b], t => IsOverdue(t, now)) == 0 && Count([b], IsPendingHigh) == 0;
    assert Count([a, b], t => IsOverdue(t, now)) == if t0 < now then 1 else 0;
  }
}
