/**
 * What the store's actions guarantee: the three consistency conditions are
 * kept, the history never exceeds its capacity and keeps the newest entries
 * first, moves are logged as reorders exactly when they stay in one column,
 * and update diffs follow the rules of the change list.
 */
module StoreProperties {
  import opened Wrappers
  import opened Seqs
  import opened Types
  import opened Constants
  import opened TaskUtils
  import opened BoardInvariants
  import opened StoreActions

  // ---------------------------------------------------------------- addTask

  /** With an id that is not yet a task, addTask keeps the board consistent. */
  lemma AddTaskPreservesConsistency(s: AppState, id: TaskId, title: string, description: Option<string>, now: Timestamp)
    requires Consistent(s.board) && id !in s.board.tasks
    ensures Consistent(AddTask(s, id, title, description, now).board)
  {
    var b, r := s.board, AddTask(s, id, title, description, now).board;
    assert forall c: ColumnId :: id !in b.order.Get(c);
    assert r.order.Get(Todo) == [id] + b.order.Get(Todo);
    assert forall c: ColumnId :: c != Todo ==> r.order.Get(c) == b.order.Get(c);
    forall c: ColumnId, x | x in r.order.Get(c) ensures x in r.tasks {
      if x != id { assert x in b.order.Get(c); }
    }
    forall c: ColumnId, d: ColumnId, x | c != d && x in r.order.Get(c) ensures x !in r.order.Get(d) {
      if x != id { assert x in b.order.Get(c); }
    }
    assert NoDup(r.order.Get(Todo)) by {
      var t := b.order.Get(Todo);
      assert NoDup(t);
      forall i, j | 0 <= i < j < |[id] + t| ensures ([id] + t)[i] != ([id] + t)[j] {
        if i == 0 {
          assert ([id] + t)[j] == t[j - 1];
        } else {
          assert ([id] + t)[i] == t[i - 1] && ([id] + t)[j] == t[j - 1];
        }
      }
    }
  }

  /** An id that is already listed in To-do (as with a constant id generator) ends up there twice. */
  lemma AddTaskWithListedIdDuplicates(s: AppState, id: TaskId, title: string, description: Option<string>, now: Timestamp)
    requires id in s.board.order.todo
    ensures !NoDup(AddTask(s, id, title, description, now).board.order.todo)
    ensures multiset(AddTask(s, id, title, description, now).board.order.todo)[id]
      == multiset(s.board.order.todo)[id] + 1
    ensures multiset(AddTask(s, id, title, description, now).board.order.todo)[id] >= 2
  {
    var t := s.board.order.todo;
    var r := [id] + t;
    assert AddTask(s, id, title, description, now).board.order.todo == r;
    assert multiset(r) == multiset([id]) + multiset(t);
    var k :| 0 <= k < |t| && t[k] == id;
    assert r[0] == r[k + 1];
  }

  /** Creating a task with a fresh id and deleting it again restores the task table and the columns. */
  lemma AddThenDeleteRestores(s: AppState, id: TaskId, title: string, description: Option<string>, now: Timestamp, later: Timestamp)
    requires I1(s.board) && id !in s.board.tasks
    ensures DeleteTask(AddTask(s, id, title, description, now), id, later).board.tasks == s.board.tasks
    ensures DeleteTask(AddTask(s, id, title, description, now), id, later).board.order == s.board.order
  {
    var a := AddTask(s, id, title, description, now);
    var o := s.board.order;
    assert id !in o.Get(Todo) && id !in o.Get(InProgress) && id !in o.Get(Done);
    assert a.board.order == Order([id] + o.todo, o.inprogress, o.done);
    WithoutPrepended(o.todo, id);
    WithoutNotIn(o.inprogress, id);
    WithoutNotIn(o.done, id);
    assert WithoutTask(a.board.order, id) == o;
    assert a.board.tasks - {id} == s.board.tasks;
  }

  /** A run of creations, one request at a time. */
  datatype Creation = Creation(id: TaskId, title: string, description: Option<string>, now: Timestamp)

  function AddTasks(s: AppState, cs: seq<Creation>): AppState
    decreases |cs|
  {
    if cs == [] then s
    else AddTasks(AddTask(s, cs[0].id, cs[0].title, cs[0].description, cs[0].now), cs[1..])
  }

  function CreatedEntries(cs: seq<Creation>): (es: seq<HistoryAction>)
    ensures |es| == |cs|
    ensures forall i :: 0 <= i < |cs| ==> es[i] == TaskCreated(cs[i].id, cs[i].title, cs[i].now)
  {
    if cs == [] then [] else [TaskCreated(cs[0].id, cs[0].title, cs[0].now)] + CreatedEntries(cs[1..])
  }

  /** After any run of creations on a log within capacity, the log is the newest entries first, cut to the capacity. */
  lemma {:induction false} AddTasksHistory(s: AppState, cs: seq<Creation>)
    requires |s.history| <= HISTORY_LENGTH
    ensures AddTasks(s, cs).history == Take(Reverse(CreatedEntries(cs)) + s.history, HISTORY_LENGTH)
    decreases |cs|
  {
    if cs == [] {
      assert Reverse(CreatedEntries(cs)) == [];
      assert [] + s.history == s.history;
    } else {
      var c := cs[0];
      var e := TaskCreated(c.id, c.title, c.now);
      var s' := AddTask(s, c.id, c.title, c.description, c.now);
      assert s'.history == Take([e] + s.history, HISTORY_LENGTH);
      AddTasksHistory(s', cs[1..]);
      var rest := Reverse(CreatedEntries(cs[1..]));
      assert AddTasks(s, cs).history == Take(rest + s'.history, HISTORY_LENGTH);
      assert Reverse(CreatedEntries(cs)) == rest + [e] by {
        assert CreatedEntries(cs) == [e] + CreatedEntries(cs[1..]);
        ReverseCons(e, CreatedEntries(cs[1..]));
      }
      PrependThenTake(rest, e, s.history);
    }
  }

  /** Logging `e` and then the entries `rest` keeps what logging `rest + [e]` at once keeps. */
  lemma PrependThenTake(rest: seq<HistoryAction>, e: HistoryAction, h: seq<HistoryAction>)
    ensures Take(rest + Take([e] + h, HISTORY_LENGTH), HISTORY_LENGTH) == Take((rest + [e]) + h, HISTORY_LENGTH)
  {
    TakeAbsorbs(rest, [e] + h, HISTORY_LENGTH);
    assert rest + ([e] + h) == (rest + [e]) + h;
  }

  /** From an empty log, at least five creations leave exactly the last five, newest first. */
  lemma ManyCreationsKeepNewestFive(s: AppState, cs: seq<Creation>)
    requires s.history == [] && |cs| >= HISTORY_LENGTH
    ensures |AddTasks(s, cs).history| == HISTORY_LENGTH
    ensures forall i :: 0 <= i < HISTORY_LENGTH ==>
      AddTasks(s, cs).history[i] == TaskCreated(cs[|cs| - 1 - i].id, cs[|cs| - 1 - i].title, cs[|cs| - 1 - i].now)
  {
    AddTasksHistory(s, cs);
    var es := CreatedEntries(cs);
    assert Reverse(es) + s.history == Reverse(es);
    var h := AddTasks(s, cs).history;
    assert h == Take(Reverse(es), HISTORY_LENGTH);
    forall i | 0 <= i < HISTORY_LENGTH
      ensures h[i] == TaskCreated(cs[|cs| - 1 - i].id, cs[|cs| - 1 - i].title, cs[|cs| - 1 - i].now)
    {
      var k := |cs| - 1 - i;
      assert Reverse(es)[i] == es[k];
      assert es[k] == TaskCreated(cs[k].id, cs[k].title, cs[k].now);
    }
  }

  // --------------------------------------------------------------- moveTask

  /** A move of a listed task replaces the column lists by MovedOrder and changes nothing else on the board. */
  lemma MoveTaskOrder(s: AppState, id: TaskId, target: ColumnId, targetIndex: Option<int>, now: Timestamp)
    requires id in s.board.tasks && CurrentColumn(s.board.order, id).Some?
    ensures MoveTask(s, id, target, targetIndex, now).board == s.board.(order := MovedOrder(s.board.order, id, target, targetIndex))
  {
  }

  /**
   * The lists after a move: the task is out of every column but the target,
   * and in the target it sits once at the splice position; the absent index
   * and any index past the end both mean the end. Every other id keeps its
   * column and its place relative to the others.
   */
  lemma MovedOrderPlacement(o: Order, id: TaskId, target: ColumnId, targetIndex: Option<int>)
    ensures var n, rest := MovedOrder(o, id, target, targetIndex), Without(o.Get(target), id);
      && n.Get(target) == InsertAt(rest, SpliceStart(targetIndex.GetOr(|rest|), |rest|), id)
      && (targetIndex.None? || targetIndex.value >= |rest| ==> n.Get(target) == rest + [id])
      && (forall c: ColumnId :: c != target ==> n.Get(c) == Without(o.Get(c), id))
      && (forall c: ColumnId :: c != target ==> id !in n.Get(c))
      && (forall c: ColumnId :: Without(n.Get(c), id) == Without(o.Get(c), id))
  {
    MovedTargetList(o, id, target, targetIndex);
    MovedOtherLists(o, id, target, targetIndex);
    var n := MovedOrder(o, id, target, targetIndex);
    forall c: ColumnId ensures Without(n.Get(c), id) == Without(o.Get(c), id) {
      MovedListFiltered(o, id, target, targetIndex, c);
    }
  }

  /** In the target column the task is spliced into the filtered list, at the end when no index or one past the end is given. */
  lemma MovedTargetList(o: Order, id: TaskId, target: ColumnId, targetIndex: Option<int>)
    ensures var n, rest := MovedOrder(o, id, target, targetIndex), Without(o.Get(target), id);
      && n.Get(target) == InsertAt(rest, SpliceStart(targetIndex.GetOr(|rest|), |rest|), id)
      && (targetIndex.None? || targetIndex.value >= |rest| ==> n.Get(target) == rest + [id])
  {
    var rest := Without(o.Get(target), id);
    if targetIndex.None? || targetIndex.value >= |rest| {
      InsertAtEnd(rest, id);
    }
  }

  /** Every other column only loses the task. */
  lemma MovedOtherLists(o: Order, id: TaskId, target: ColumnId, targetIndex: Option<int>)
    ensures var n := MovedOrder(o, id, target, targetIndex);
      && (forall c: ColumnId :: c != target ==> n.Get(c) == Without(o.Get(c), id))
      && (forall c: ColumnId :: c != target ==> id !in n.Get(c))
  {
  }

  /** With the task filtered out, no column has changed. */
  lemma MovedListFiltered(o: Order, id: TaskId, target: ColumnId, targetIndex: Option<int>, c: ColumnId)
    ensures Without(MovedOrder(o, id, target, targetIndex).Get(c), id) == Without(o.Get(c), id)
  {
    var rest := Without(o.Get(target), id);
    var k := SpliceStart(targetIndex.GetOr(|rest|), |rest|);
    if c == target {
      WithoutInsertAt(rest, k, id);
    }
    WithoutIdempotent(o.Get(c), id);
  }

  /** After a move an id is listed in a column exactly when it is the moved task and the column is the target, or it is another id that was listed there. */
  lemma MovedOrderMembers(o: Order, id: TaskId, target: ColumnId, targetIndex: Option<int>)
    ensures var n := MovedOrder(o, id, target, targetIndex);
      forall c: ColumnId, x :: x in n.Get(c) <==> (x == id && c == target) || (x != id && x in o.Get(c))
  {
  }

  /** After a move no column lists an id twice, if none did before. */
  lemma MovedOrderNoDup(o: Order, id: TaskId, target: ColumnId, targetIndex: Option<int>, c: ColumnId)
    requires NoDup(o.Get(c))
    ensures NoDup(MovedOrder(o, id, target, targetIndex).Get(c))
  {
    var rest := Without(o.Get(target), id);
    var k := SpliceStart(RequestedIndex(o, id, target, targetIndex), |rest|);
    WithoutNoDup(o.Get(c), id);
    if c == target {
      InsertAtNoDup(rest, k, id);
    }
  }

  /** Taking a task out of every column and splicing it back into one keeps I1, I2 and I3. */
  lemma MovedOrderConsistent(b: BoardState, id: TaskId, target: ColumnId, targetIndex: Option<int>)
    requires Consistent(b) && id in b.tasks
    ensures Consistent(b.(order := MovedOrder(b.order, id, target, targetIndex)))
  {
    MovedOrderMembers(b.order, id, target, targetIndex);
    forall c: ColumnId ensures NoDup(MovedOrder(b.order, id, target, targetIndex).Get(c)) {
      MovedOrderNoDup(b.order, id, target, targetIndex, c);
    }
  }

  /** The effect of a move on the board, in terms of the lists before it. */
  lemma MoveTaskPlacement(s: AppState, id: TaskId, target: ColumnId, targetIndex: Option<int>, now: Timestamp)
    requires id in s.board.tasks && CurrentColumn(s.board.order, id).Some?
    ensures var o, n := s.board.order, MoveTask(s, id, target, targetIndex, now).board.order;
      var rest := Without(o.Get(target), id);
      && n.Get(target) == InsertAt(rest, SpliceStart(targetIndex.GetOr(|rest|), |rest|), id)
      && (targetIndex.None? || targetIndex.value >= |rest| ==> n.Get(target) == rest + [id])
      && (forall c: ColumnId :: c != target ==> id !in n.Get(c))
      && (forall c: ColumnId :: Without(n.Get(c), id) == Without(o.Get(c), id))
  {
    MoveTaskOrder(s, id, target, targetIndex, now);
    MovedOrderPlacement(s.board.order, id, target, targetIndex);
  }

  /**
   * A move of a task whose current column is `c` (the first column, in the
   * order To-do, In progress, Done, that lists it) is logged as a reorder
   * exactly when the target is `c` (carrying the old position and the
   * requested index, not the clamped one), and as a move from `c` otherwise.
   */
  lemma MoveTaskHistory(s: AppState, id: TaskId, c: ColumnId, target: ColumnId, targetIndex: Option<int>, now: Timestamp)
    requires id in s.board.tasks && CurrentColumn(s.board.order, id) == Some(c)
    ensures var h := MoveTask(s, id, target, targetIndex, now).history;
      var title := s.board.tasks[id].title;
      && h[1..] == Take(s.history, HISTORY_LENGTH - 1)
      && (h[0].TaskReordered? <==> target == c)
      && (h[0].TaskMoved? <==> target != c)
      && (target == c ==>
            var from := IndexOf(s.board.order.Get(c), id);
            && h[0] == TaskReordered(id, title, c, from,
                                     targetIndex.GetOr(|Without(s.board.order.Get(c), id)|), now)
            && 0 <= from && s.board.order.Get(c)[from] == id)
      && (target != c ==> h[0] == TaskMoved(id, title, c, target, now))
  {
    var e := MoveEntry(s.board, id, c, target, targetIndex, now);
    var next := s.(board := s.board.(order := MovedOrder(s.board.order, id, target, targetIndex)));
    assert MoveTask(s, id, target, targetIndex, now) == AddHistoryEntry(next, e);
    assert target == c ==>
      RequestedIndex(s.board.order, id, c, targetIndex) == targetIndex.GetOr(|Without(s.board.order.Get(c), id)|);
  }

  /** A move keeps the board consistent. */
  lemma MoveTaskPreservesConsistency(s: AppState, id: TaskId, target: ColumnId, targetIndex: Option<int>, now: Timestamp)
    requires Consistent(s.board)
    ensures Consistent(MoveTask(s, id, target, targetIndex, now).board)
  {
    if id in s.board.tasks && CurrentColumn(s.board.order, id).Some? {
      MoveTaskOrder(s, id, target, targetIndex, now);
      MovedOrderConsistent(s.board, id, target, targetIndex);
    }
  }

  /** Moving a task within its own column without an index sends it to the end of that column. */
  lemma MoveWithinColumnWithoutIndexAppends(s: AppState, id: TaskId, c: ColumnId, now: Timestamp)
    requires I2(s.board) && id in s.board.tasks && id in s.board.order.Get(c)
    ensures MoveTask(s, id, c, None, now).board.order.Get(c) == Without(s.board.order.Get(c), id) + [id]
    ensures MoveTask(s, id, c, None, now).history[0].TaskReordered?
  {
    CurrentColumnUnderI2(s.board, id, c);
    MoveTaskPlacement(s, id, c, None, now);
    MoveTaskHistory(s, id, c, c, None, now);
  }

  /** On a board where no id is in two columns, the current column is the one that lists the id. */
  lemma CurrentColumnUnderI2(b: BoardState, id: TaskId, c: ColumnId)
    requires I2(b) && id in b.order.Get(c)
    ensures CurrentColumn(b.order, id) == Some(c)
  {
  }

  /**
   * A reused id can sit in To-do and in Done at once (add it, move it to
   * Done, add it again). Moving it to Done then counts it as coming from
   * To-do: it is logged as a move from To-do, and every copy leaves To-do.
   */
  lemma MoveOfDuplicatedIdIsFromTodo(s: AppState, id: TaskId, now: Timestamp)
    requires id in s.board.tasks && id in s.board.order.todo && id in s.board.order.done
    ensures var n := MoveTask(s, id, Done, None, now);
      && n.history[0] == TaskMoved(id, s.board.tasks[id].title, Todo, Done, now)
      && n.board.order.todo == Without(s.board.order.todo, id)
      && n.board.order.done == Without(s.board.order.done, id) + [id]
  {
    var n := MoveTask(s, id, Done, None, now);
    MoveTaskHistory(s, id, Todo, Done, None, now);
    MoveTaskPlacement(s, id, Done, None, now);
    assert n.board.order.todo == n.board.order.Get(Todo);
    assert n.board.order.done == n.board.order.Get(Done);
    assert Without(n.board.order.Get(Todo), id) == Without(s.board.order.Get(Todo), id);
    WithoutNotIn(n.board.order.Get(Todo), id);
  }

  // ------------------------------------------------------------- updateTask

  /** An update keeps the board consistent: it changes one record and no list. */
  lemma UpdateTaskPreservesConsistency(s: AppState, id: TaskId, u: TaskUpdate, now: Timestamp)
    requires Consistent(s.board)
    ensures Consistent(UpdateTask(s, id, u, now).board)
  {
  }

  /** Providing the values a task already has writes the same record and logs nothing. */
  lemma IdenticalUpdateIsSilent(s: AppState, id: TaskId, u: TaskUpdate, now: Timestamp)
    requires id in s.board.tasks
    requires u.title.None? || u.title.value == s.board.tasks[id].title
    requires u.description.KeepDescription?
      || (u.description.SetDescription? && Some(u.description.text) == s.board.tasks[id].description)
    ensures UpdateTask(s, id, u, now) == s
  {
    var prev := s.board.tasks[id];
    assert MergeUpdate(prev, u) == prev;
    assert s.board.tasks[id := prev] == s.board.tasks;
  }

  /**
   * An update that logs nothing changed the record at most by writing an
   * empty title or by erasing the description; one that logs something
   * really changed it.
   */
  lemma UnloggedUpdateOnlyBlanksOrErases(prev: Task, u: TaskUpdate)
    ensures Changes(prev, u) == [] ==>
      && (MergeUpdate(prev, u).title == prev.title || MergeUpdate(prev, u).title == "")
      && (MergeUpdate(prev, u).description == prev.description || MergeUpdate(prev, u).description == None)
    ensures Changes(prev, u) != [] ==> MergeUpdate(prev, u) != prev
  {
  }

  /** Erasing the description of a task (what the edit dialog sends for a cleared field) removes it without a log entry. */
  lemma ErasingDescriptionIsUnlogged(s: AppState, id: TaskId, now: Timestamp)
    requires id in s.board.tasks && s.board.tasks[id].description.Some?
    ensures var r := UpdateTask(s, id, TaskUpdate(None, EraseDescription), now);
      r.board.tasks[id].description == None && r.history == s.history
  {
  }

  /** An empty title is written to the task but never logged. */
  lemma EmptyTitleIsWrittenUnlogged(s: AppState, id: TaskId, now: Timestamp)
    requires id in s.board.tasks && s.board.tasks[id].title != ""
    ensures var r := UpdateTask(s, id, TaskUpdate(Some(""), KeepDescription), now);
      r.board.tasks[id].title == "" && r.history == s.history
  {
  }

  /** Setting an empty description on a task that has none is logged, with both sides rendered as the word empty. */
  lemma MissingToEmptyDescriptionLogsEmptyToEmpty(prev: Task)
    requires prev.description.None?
    ensures Changes(prev, TaskUpdate(None, SetDescription(""))) == [DescriptionDiff("empty", "empty")]
  {
  }

  /** When both fields change, the title difference comes first and the description difference second. */
  lemma BothChangesInOrder(prev: Task, title: string, description: string)
    requires title != "" && title != prev.title && Some(description) != prev.description
    ensures Changes(prev, TaskUpdate(Some(title), SetDescription(description)))
      == [TitleDiff(prev.title, title), DescriptionDiff(EmptyIfFalsy(prev.description), EmptyIfFalsy(Some(description)))]
  {
  }

  // ------------------------------------------------------------- deleteTask

  /** Deleting keeps the board consistent and leaves no trace of the id in the table or the columns. */
  lemma DeleteTaskPreservesConsistency(s: AppState, id: TaskId, now: Timestamp)
    requires Consistent(s.board)
    ensures Consistent(DeleteTask(s, id, now).board)
    ensures id !in DeleteTask(s, id, now).board.tasks
    ensures forall c: ColumnId :: id !in DeleteTask(s, id, now).board.order.Get(c)
  {
    var r := DeleteTask(s, id, now).board;
    if id in s.board.tasks {
      forall c: ColumnId ensures NoDup(r.order.Get(c)) {
        WithoutNoDup(s.board.order.Get(c), id);
      }
    } else {
      assert forall c: ColumnId :: id !in s.board.order.Get(c);
    }
  }

  // ---------------------------------------------------------------- filters

  /** Toggling one column's flag twice restores the filters. */
  lemma ToggleTwiceRestores(s: AppState, c: ColumnId)
    ensures ToggleStatusFilter(ToggleStatusFilter(s, c), c) == s
  {
    var f := s.board.filters.statusFilters;
    var g := ToggleStatusFilter(ToggleStatusFilter(s, c), c).board.filters.statusFilters;
    assert g.Get(Todo) == f.Get(Todo) && g.Get(InProgress) == f.Get(InProgress) && g.Get(Done) == f.Get(Done);
  }

  /** The filters clearFilters produces are the filters of the empty board. */
  lemma ClearedFiltersAreDefault(s: AppState)
    ensures ClearFilters(s).board.filters == EmptyBoard().filters
  {
  }

  // ------------------------------------------------------- reachable states

  /** One call of a store action, with the id and timestamp it will use. */
  datatype Action =
    | Add(id: TaskId, title: string, description: Option<string>, now: Timestamp)
    | Move(id: TaskId, target: ColumnId, targetIndex: Option<int>, now: Timestamp)
    | Update(id: TaskId, update: TaskUpdate, now: Timestamp)
    | Delete(id: TaskId, now: Timestamp)
    | Search(term: string)
    | Toggle(column: ColumnId)
    | Clear

  function Step(s: AppState, a: Action): AppState
  {
    match a
    case Add(id, title, description, now) => AddTask(s, id, title, description, now)
    case Move(id, target, targetIndex, now) => MoveTask(s, id, target, targetIndex, now)
    case Update(id, u, now) => UpdateTask(s, id, u, now)
    case Delete(id, now) => DeleteTask(s, id, now)
    case Search(term) => SetSearchTerm(s, term)
    case Toggle(c) => ToggleStatusFilter(s, c)
    case Clear => ClearFilters(s)
  }

  function Run(s: AppState, actions: seq<Action>): AppState
    decreases |actions|
  {
    if actions == [] then s else Run(Step(s, actions[0]), actions[1..])
  }

  /** Every creation in the run uses an id that is not a task at that moment. */
  ghost predicate FreshIds(s: AppState, actions: seq<Action>)
    decreases |actions|
  {
    actions == [] || ((actions[0].Add? ==> actions[0].id !in s.board.tasks) && FreshIds(Step(s, actions[0]), actions[1..]))
  }

  /** The store's invariant: a consistent board and a log within capacity. */
  ghost predicate Valid(s: AppState)
  {
    Consistent(s.board) && |s.history| <= HISTORY_LENGTH
  }

  lemma StepPreservesValid(s: AppState, a: Action)
    requires Valid(s)
    requires a.Add? ==> a.id !in s.board.tasks
    ensures Valid(Step(s, a))
  {
    match a
    case Add(id, title, description, now) => AddTaskPreservesConsistency(s, id, title, description, now);
    case Move(id, target, targetIndex, now) => MoveTaskPreservesConsistency(s, id, target, targetIndex, now);
    case Update(id, u, now) => UpdateTaskPreservesConsistency(s, id, u, now);
    case Delete(id, now) => DeleteTaskPreservesConsistency(s, id, now);
    case Search(term) =>
    case Toggle(c) =>
    case Clear =>
  }

  /** Every state reachable from the initial store, creating with fresh ids, is consistent with a bounded log. */
  lemma {:induction false} RunFromInitialIsValid(actions: seq<Action>)
    requires FreshIds(AppState(EmptyBoard(), []), actions)
    ensures Valid(Run(AppState(EmptyBoard(), []), actions))
  {
    EmptyBoardConsistent();
    RunPreservesValid(AppState(EmptyBoard(), []), actions);
  }

  lemma {:induction false} RunPreservesValid(s: AppState, actions: seq<Action>)
    requires Valid(s) && FreshIds(s, actions)
    ensures Valid(Run(s, actions))
    decreases |actions|
  {
    if actions != [] {
      StepPreservesValid(s, actions[0]);
      RunPreservesValid(Step(s, actions[0]), actions[1..]);
    }
  }

  // -------------------------------------------------------------- scenarios

  /** With To-do [A, B, C], moving C to index 0 gives [C, A, B], logged as a reorder from 2 to 0. */
  lemma ReorderScenario(s: AppState, a: TaskId, b: TaskId, c: TaskId, now: Timestamp)
    requires a != b && b != c && a != c
    requires s.board.order == Order([a, b, c], [], []) && c in s.board.tasks
    ensures MoveTask(s, c, Todo, Some(0), now).board.order.todo == [c, a, b]
    ensures MoveTask(s, c, Todo, Some(0), now).history[0]
      == TaskReordered(c, s.board.tasks[c].title, Todo, 2, 0, now)
  {
    LastOfThree(a, b, c);
    ReorderedList(s, c, [a, b], now);
    ReorderScenarioEntry(s, [a, b, c], c, now);
  }

  /** Moving a listed to-do task to index 0 is logged as a reorder from its old position to 0. */
  lemma ReorderScenarioEntry(s: AppState, todo: seq<TaskId>, c: TaskId, now: Timestamp)
    requires s.board.order.todo == todo && c in todo && c in s.board.tasks
    ensures MoveTask(s, c, Todo, Some(0), now).history[0]
      == TaskReordered(c, s.board.tasks[c].title, Todo, IndexOf(todo, c), 0, now)
  {
    assert CurrentColumn(s.board.order, c) == Some(Todo);
    MoveTaskHistory(s, c, Todo, Todo, Some(0), now);
  }

  /** Moving a to-do task to the front puts it before the rest of the list, in their order. */
  lemma ReorderedList(s: AppState, id: TaskId, rest: seq<TaskId>, now: Timestamp)
    requires id in s.board.tasks && id in s.board.order.todo
    requires Without(s.board.order.todo, id) == rest
    ensures MoveTask(s, id, Todo, Some(0), now).board.order.todo == [id] + rest
  {
    var n := MoveTask(s, id, Todo, Some(0), now);
    assert s.board.order.Get(Todo) == s.board.order.todo;
    MoveTaskPlacement(s, id, Todo, Some(0), now);
    assert n.board.order.todo == n.board.order.Get(Todo) == InsertAt(rest, 0, id);
    InsertAtFront(rest, id);
  }

  /** The list facts the reorder scenario rests on. */
  lemma LastOfThree(a: TaskId, b: TaskId, c: TaskId)
    requires a != b && b != c && a != c
    ensures Without([a, b, c], c) == [a, b]
    ensures IndexOf([a, b, c], c) == 2
  {
    assert [a, b, c][1..] == [b, c];
    assert [b, c][1..] == [c];
    assert [c][1..] == [];
  }
}
