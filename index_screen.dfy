/**
 The list screen: it splits the store's list into active and completed tasks, counts them,
 decides which sections to show, and connects the input and the rows to the store.
 */
module IndexScreen {
  import opened Text
  import opened Lists
  import opened TodoStore
  import opened TodoItem
  import opened AddTodo

  predicate IsActive(t: Todo) {
    !t.completed
  }

  predicate IsCompleted(t: Todo) {
    t.completed
  }

  /** What the screen derives from the list on every render. */
  datatype Summary = Summary(active: seq<Todo>, completed: seq<Todo>, completedCount: nat, totalCount: nat)

  /**
   The partition: `active` holds exactly the tasks that are not completed and `completed`
   exactly those that are, every task lands in exactly one of them, and the completed count
   never exceeds the total.
   */
  function Summarize(todos: seq<Todo>): (s: Summary)
    ensures forall t :: t in s.active ==> t in todos && !t.completed
    ensures forall t :: t in todos && !t.completed ==> t in s.active
    ensures forall t :: t in s.completed ==> t in todos && t.completed
    ensures forall t :: t in todos && t.completed ==> t in s.completed
    ensures multiset(s.active) + multiset(s.completed) == multiset(todos)
    ensures |s.active| + |s.completed| == s.totalCount == |todos|
    ensures s.completedCount == |s.completed| <= s.totalCount
  {
    FilterMembers(todos, IsActive);
    FilterMembers(todos, IsCompleted);
    FilterSplit(todos, IsActive, IsCompleted);
    var active := Filter(todos, IsActive);
    var completed := Filter(todos, IsCompleted);
    Summary(active, completed, |completed|, |todos|)
  }

  /**
   Both parts keep the store's order: the parts of a concatenation are the concatenations of
   the parts, and a single task goes to the part its flag names.
   */
  lemma PartitionKeepsOrder(a: seq<Todo>, b: seq<Todo>)
    ensures Summarize(a + b).active == Summarize(a).active + Summarize(b).active
    ensures Summarize(a + b).completed == Summarize(a).completed + Summarize(b).completed
  {
    FilterConcat(a, b, IsActive);
    FilterConcat(a, b, IsCompleted);
  }

  lemma PartitionOfOne(t: Todo)
    ensures Summarize([t]).active == if t.completed then [] else [t]
    ensures Summarize([t]).completed == if t.completed then [t] else []
  {
  }

  /** The progress summary is shown while the list is not empty. */
  predicate ShowsProgress(s: Summary) {
    s.totalCount > 0
  }

  /** The block of active rows is shown while some task is active. */
  predicate ShowsActiveRows(s: Summary) {
    |s.active| > 0
  }

  /** The "Completed" header and its rows are shown while some task is completed. */
  predicate ShowsCompletedSection(s: Summary) {
    |s.completed| > 0
  }

  /** The empty state is shown when the list is empty. */
  predicate ShowsEmptyState(s: Summary) {
    s.totalCount == 0
  }

  /**
   Exactly one of the progress summary and the empty state is shown, and the empty state never
   appears beside a section of rows.
   */
  lemma ProgressOrEmptyState(todos: seq<Todo>)
    ensures ShowsProgress(Summarize(todos)) != ShowsEmptyState(Summarize(todos))
    ensures ShowsEmptyState(Summarize(todos)) ==>
      !ShowsActiveRows(Summarize(todos)) && !ShowsCompletedSection(Summarize(todos))
    ensures ShowsProgress(Summarize(todos)) <==>
      ShowsActiveRows(Summarize(todos)) || ShowsCompletedSection(Summarize(todos))
  {
  }

  /** The active rows are shown exactly when the list holds a task that is not completed. */
  lemma ActiveRowsShownIff(todos: seq<Todo>)
    ensures ShowsActiveRows(Summarize(todos)) <==> exists k :: 0 <= k < |todos| && !todos[k].completed
  {
    var s := Summarize(todos);
    if ShowsActiveRows(s) {
      assert s.active[0] in s.active;
    } else {
      forall k | 0 <= k < |todos| ensures todos[k].completed {
        assert todos[k] in todos;
      }
    }
  }

  /** The completed section is shown exactly when the list holds a completed task. */
  lemma CompletedSectionShownIff(todos: seq<Todo>)
    ensures ShowsCompletedSection(Summarize(todos)) <==> exists k :: 0 <= k < |todos| && todos[k].completed
  {
    var s := Summarize(todos);
    if ShowsCompletedSection(s) {
      assert s.completed[0] in s.completed;
    } else {
      forall k | 0 <= k < |todos| ensures !todos[k].completed {
        assert todos[k] in todos;
      }
    }
  }

  /** A task put in front of a list goes to the front of the part its flag names. */
  lemma PartitionOfPrepend(t: Todo, ts: seq<Todo>)
    ensures Summarize([t] + ts).active == (if t.completed then [] else [t]) + Summarize(ts).active
    ensures Summarize([t] + ts).completed == (if t.completed then [t] else []) + Summarize(ts).completed
  {
    PartitionKeepsOrder([t], ts);
    PartitionOfOne(t);
  }

  /** The seed list shows two active tasks and one completed. */
  lemma SeedPartition(now: int)
    ensures |Summarize(Seed(now)).active| == 2 && |Summarize(Seed(now)).completed| == 1
  {
    var s := Seed(now);
    assert s == [s[0]] + ([s[1]] + [s[2]]);
    PartitionOfPrepend(s[0], [s[1]] + [s[2]]);
    PartitionOfPrepend(s[1], [s[2]]);
    PartitionOfOne(s[2]);
  }

  /** From the seed list, adding "Test" makes three active tasks of four. */
  lemma SeedScenarioAdd(now: int, idNow: nat, createdNow: int)
    ensures |Summarize([NewTodo(1, "Test", idNow, createdNow)] + Seed(now)).active| == 3
    ensures Summarize([NewTodo(1, "Test", idNow, createdNow)] + Seed(now)).totalCount == 4
  {
    SeedPartition(now);
    PartitionOfPrepend(NewTodo(1, "Test", idNow, createdNow), Seed(now));
  }

  /** Then toggling the new task makes two active and two completed tasks. */
  lemma SeedScenarioToggle(now: int, idNow: nat, createdNow: int)
    ensures Toggled([NewTodo(1, "Test", idNow, createdNow)] + Seed(now), Generated(1, idNow))
         == [NewTodo(1, "Test", idNow, createdNow).(completed := true)] + Seed(now)
    ensures var toggled := [NewTodo(1, "Test", idNow, createdNow).(completed := true)] + Seed(now);
      |Summarize(toggled).active| == 2 && Summarize(toggled).completedCount == 2
  {
    var t := NewTodo(1, "Test", idNow, createdNow);
    SeedFacts(now);
    AddKeepsIdsDistinct(Seed(now), 1, "Test", idNow, createdNow);
    ToggleUnknownIsNoop(Seed(now), t.id);
    assert Toggled([t] + Seed(now), t.id) == [Flip(t, t.id)] + Toggled(Seed(now), t.id);
    SeedPartition(now);
    PartitionOfPrepend(t.(completed := true), Seed(now));
  }

  /** Then deleting the new task gives back the seed list of three. */
  lemma SeedScenarioDelete(now: int, idNow: nat, createdNow: int)
    ensures Without([NewTodo(1, "Test", idNow, createdNow).(completed := true)] + Seed(now), Generated(1, idNow))
         == Seed(now)
  {
    var toggled := [NewTodo(1, "Test", idNow, createdNow).(completed := true)] + Seed(now);
    SeedFacts(now);
    AddKeepsIdsDistinct(Seed(now), 1, "Test", idNow, createdNow);
    assert IdsDistinct(toggled) by {
      forall i, j | 0 <= i < j < |toggled| ensures toggled[i].id != toggled[j].id {
        assert toggled[j] == Seed(now)[j - 1];
        if i > 0 {
          assert toggled[i] == Seed(now)[i - 1];
        }
      }
    }
    DeleteAt(toggled, 0);
    assert toggled[1..] == Seed(now);
  }

  // ---------------------------------------------------------------------------------------
  // Wiring: the input's `onAdd` is the store's `addTodo`, a row's `onToggle` and `onDelete`
  // are the store's `toggleTodo` and `deleteTodo`. The store is the one the provider holds.

  /** Submitting the input adds the trimmed text to the store; the store's second trim changes nothing. */
  method SubmitNewTask(input: AddTodoInput, store: Store, idNow: nat, createdNow: int)
    requires store.Valid()
    modifies input, store
    ensures store.Valid()
    ensures Trim(old(input.text)) == [] ==>
      store.todos == old(store.todos) && store.nextId == old(store.nextId) && input.text == old(input.text)
    ensures Trim(old(input.text)) != [] ==>
      && store.todos == [NewTodo(old(store.nextId), Trim(old(input.text)), idNow, createdNow)] + old(store.todos)
      && store.nextId == old(store.nextId) + 1
      && input.text == ""
  {
    var adds := input.Submit();
    if adds != [] {
      store.AddTodo(adds[0], idNow, createdNow);
    }
  }

  /** Tapping a row's checkbox toggles that row's task in the store. */
  method TapRow(row: SwipeRow, store: Store)
    requires store.Valid()
    modifies store
    ensures store.Valid()
    ensures store.todos == Toggled(old(store.todos), row.id) && store.nextId == old(store.nextId)
  {
    var toggles := row.Tap();
    store.ToggleTodo(toggles[0]);
  }

  /**
   Releasing a row's touch past the threshold deletes that row's task, and only it, from the
   store; any other release leaves the store alone and the row back at offset 0.
   */
  method ReleaseRow(row: SwipeRow, store: Store, pageX: int)
    requires row.Valid() && store.Valid()
    modifies row, store
    ensures row.Valid() && store.Valid()
    ensures Commits(pageX, old(row.panStartX)) ==>
      store.todos == Without(old(store.todos), row.id) && !HasId(store.todos, row.id)
    ensures !Commits(pageX, old(row.panStartX)) ==> store.todos == old(store.todos) && row.offset == 0
    ensures store.nextId == old(store.nextId)
  {
    var deletes := row.Release(pageX);
    if deletes != [] {
      store.DeleteTodo(deletes[0]);
    }
  }
}
