/**
 * The store's actions as functions from the old state to the new one:
 * the history append and the updaters of addTask, moveTask, updateTask,
 * deleteTask, setSearchTerm, toggleStatusFilter and clearFilters.
 * Identifiers and timestamps, which the store draws from a generator and
 * the clock, are parameters.
 */
module StoreActions {
  import opened Wrappers
  import opened Seqs
  import opened Types
  import opened Constants

  /** The new entry goes in front and only the newest HISTORY_LENGTH entries are kept. */
  function AddHistoryEntry(state: AppState, action: HistoryAction): (r: AppState)
    ensures r.board == state.board
    ensures |r.history| == if |state.history| < HISTORY_LENGTH then |state.history| + 1 else HISTORY_LENGTH
    ensures r.history[0] == action
    ensures forall i :: 1 <= i < |r.history| ==> r.history[i] == state.history[i - 1]
    ensures r.history[1..] == Take(state.history, HISTORY_LENGTH - 1)
  {
    state.(history := Take([action] + state.history, HISTORY_LENGTH))
  }

  /** The new task: the title and description exactly as given, created now. */
  function NewTask(id: TaskId, title: string, description: Option<string>, now: Timestamp): Task
  {
    Task(id, title, description, Some(now), None)
  }

  /** addTask: store the task under `id`, put `id` first in To-do and log the creation. */
  function AddTask(state: AppState, id: TaskId, title: string, description: Option<string>, now: Timestamp): (r: AppState)
    ensures id in r.board.tasks && r.board.tasks[id] == NewTask(id, title, description, now)
    ensures forall x :: x != id ==> (x in r.board.tasks <==> x in state.board.tasks)
    ensures forall x :: x != id && x in state.board.tasks ==> r.board.tasks[x] == state.board.tasks[x]
    ensures r.board.order.todo == [id] + state.board.order.todo
    ensures r.board.order.inprogress == state.board.order.inprogress
    ensures r.board.order.done == state.board.order.done
    ensures r.board.filters == state.board.filters
    ensures r.history == Take([TaskCreated(id, title, now)] + state.history, HISTORY_LENGTH)
  {
    var board := state.board;
    var next := state.(board := board.(
      tasks := board.tasks[id := NewTask(id, title, description, now)],
      order := board.order.(todo := [id] + board.order.todo)));
    AddHistoryEntry(next, TaskCreated(id, title, now))
  }

  /** Every copy of `id` filtered out of all three columns. */
  function WithoutTask(o: Order, id: TaskId): (r: Order)
    ensures forall c: ColumnId :: r.Get(c) == Without(o.Get(c), id)
  {
    Order(Without(o.todo, id), Without(o.inprogress, id), Without(o.done, id))
  }

  /** The first column, in the order To-do, In progress, Done, whose list holds `id`. */
  function CurrentColumn(o: Order, id: TaskId): (r: Option<ColumnId>)
    ensures r.None? <==> forall c: ColumnId :: id !in o.Get(c)
    ensures r.Some? ==> id in o.Get(r.value)
    ensures r == Some(Todo) <==> id in o.todo
    ensures r == Some(InProgress) <==> id !in o.todo && id in o.inprogress
    ensures r == Some(Done) <==> id !in o.todo && id !in o.inprogress && id in o.done
  {
    if id in o.todo then assert id in o.Get(Todo); Some(Todo)
    else if id in o.inprogress then assert id in o.Get(InProgress); Some(InProgress)
    else if id in o.done then assert id in o.Get(Done); Some(Done)
    else None
  }

  /** The index the move asks for: the given one, or the end of the target list once the task is out of it. */
  function RequestedIndex(o: Order, id: TaskId, target: ColumnId, targetIndex: Option<int>): int
  {
    targetIndex.GetOr(|WithoutTask(o, id).Get(target)|)
  }

  /** The column lists after the move: the task taken out everywhere, then spliced into the target list. */
  function MovedOrder(o: Order, id: TaskId, target: ColumnId, targetIndex: Option<int>): (r: Order)
    ensures var rest := Without(o.Get(target), id);
      r.Get(target) == InsertAt(rest, SpliceStart(RequestedIndex(o, id, target, targetIndex), |rest|), id)
    ensures forall c: ColumnId :: c != target ==> r.Get(c) == Without(o.Get(c), id)
  {
    var removed := WithoutTask(o, id);
    var targetTasks := removed.Get(target);
    var k := SpliceStart(RequestedIndex(o, id, target, targetIndex), |targetTasks|);
    removed.Set(target, InsertAt(targetTasks, k, id))
  }

  /** moveTask: nothing happens unless the task exists and is listed; otherwise re-place it and log a move or a reorder. */
  function MoveTask(state: AppState, id: TaskId, target: ColumnId, targetIndex: Option<int>, now: Timestamp): (r: AppState)
    ensures r.board.tasks == state.board.tasks
    ensures r.board.filters == state.board.filters
    ensures id !in state.board.tasks ==> r == state
    ensures CurrentColumn(state.board.order, id).None? ==> r == state
  {
    var board := state.board;
    if id !in board.tasks then state
    else
      match CurrentColumn(board.order, id)
      case None => state
      case Some(current) =>
        AddHistoryEntry(state.(board := board.(order := MovedOrder(board.order, id, target, targetIndex))),
                        MoveEntry(board, id, current, target, targetIndex, now))
  }

  /** The log entry of a move out of `current`: a reorder when the task stays in that column, a move otherwise. */
  function MoveEntry(b: BoardState, id: TaskId, current: ColumnId, target: ColumnId, targetIndex: Option<int>, now: Timestamp): (e: HistoryAction)
    requires id in b.tasks
    ensures e.TaskReordered? <==> current == target
    ensures e.TaskMoved? <==> current != target
    ensures e.taskId == id && e.taskTitle == b.tasks[id].title && e.timestamp == now
    ensures e.TaskMoved? ==> e.fromColumn == current && e.toColumn == target
    ensures e.TaskReordered? ==> e.column == target && e.fromIndex == IndexOf(b.order.Get(current), id)
    ensures e.TaskReordered? ==> e.toIndex == targetIndex.GetOr(|Without(b.order.Get(target), id)|)
  {
    var title := b.tasks[id].title;
    if current == target then
      TaskReordered(id, title, target, IndexOf(b.order.Get(current), id),
                    RequestedIndex(b.order, id, target, targetIndex), now)
    else
      TaskMoved(id, title, current, target, now)
  }

  /** What an update may say about the description: nothing, clear it, or set it. */
  datatype DescriptionUpdate = KeepDescription | EraseDescription | SetDescription(text: string)

  /** The fields an update provides; an absent title is `None`. */
  datatype TaskUpdate = TaskUpdate(title: Option<string>, description: DescriptionUpdate)

  /** `{ ...oldTask, ...updates }`: provided fields replace the old ones, nothing else changes. */
  function MergeUpdate(prev: Task, u: TaskUpdate): (t: Task)
    ensures t.id == prev.id && t.createdAt == prev.createdAt && t.updatedAt == prev.updatedAt
    ensures u.title.Some? ==> t.title == u.title.value
    ensures u.title.None? ==> t.title == prev.title
    ensures u.description.KeepDescription? ==> t.description == prev.description
    ensures u.description.EraseDescription? ==> t.description == None
    ensures u.description.SetDescription? ==> t.description == Some(u.description.text)
  {
    var title := if u.title.Some? then u.title.value else prev.title;
    var description :=
      match u.description
      case KeepDescription => prev.description
      case EraseDescription => None
      case SetDescription(d) => Some(d);
    prev.(title := title, description := description)
  }

  /** `description || "empty"`: a missing or empty description reads as the word empty. */
  function EmptyIfFalsy(d: Option<string>): (s: string)
    ensures s == "empty" <==> d.None? || d.value == "" || d.value == "empty"
    ensures d.Some? && d.value != "" ==> s == d.value
  {
    if d.None? || d.value == "" then "empty" else d.value
  }

  function TitleDiff(from: string, to: string): string
  {
    "title: \"" + from + "\" \U{2192} \"" + to + "\""
  }

  function DescriptionDiff(from: string, to: string): string
  {
    "description: \"" + from + "\" \U{2192} \"" + to + "\""
  }

  /** The title is logged when a non-empty title different from the prev one is provided. */
  predicate TitleChanged(prev: Task, u: TaskUpdate)
  {
    u.title.Some? && u.title.value != "" && u.title.value != prev.title
  }

  /** The description is logged when a description string different from the prev value is provided. */
  predicate DescriptionChanged(prev: Task, u: TaskUpdate)
  {
    u.description.SetDescription? && Some(u.description.text) != prev.description
  }

  /** The change list: the title difference first, then the description difference. */
  function Changes(prev: Task, u: TaskUpdate): (cs: seq<string>)
    ensures |cs| == (if TitleChanged(prev, u) then 1 else 0) + (if DescriptionChanged(prev, u) then 1 else 0)
    ensures TitleChanged(prev, u) ==> cs[0] == TitleDiff(prev.title, u.title.value)
    ensures DescriptionChanged(prev, u) ==>
      cs[|cs| - 1] == DescriptionDiff(EmptyIfFalsy(prev.description), EmptyIfFalsy(Some(u.description.text)))
  {
    (if TitleChanged(prev, u) then [TitleDiff(prev.title, u.title.value)] else [])
    + (if DescriptionChanged(prev, u)
       then [DescriptionDiff(EmptyIfFalsy(prev.description), EmptyIfFalsy(Some(u.description.text)))]
       else [])
  }

  /** updateTask: write the merged task; log it only when the change list is non-empty. */
  function UpdateTask(state: AppState, id: TaskId, u: TaskUpdate, now: Timestamp): (r: AppState)
    ensures id !in state.board.tasks ==> r == state
    ensures id in state.board.tasks ==>
      r.board == state.board.(tasks := state.board.tasks[id := MergeUpdate(state.board.tasks[id], u)])
    ensures id in state.board.tasks && Changes(state.board.tasks[id], u) == [] ==> r.history == state.history
    ensures id in state.board.tasks && Changes(state.board.tasks[id], u) != [] ==>
      r.history == Take([TaskUpdated(id, MergeUpdate(state.board.tasks[id], u).title,
                                     Changes(state.board.tasks[id], u), now)] + state.history,
                        HISTORY_LENGTH)
  {
    var board := state.board;
    if id !in board.tasks then state
    else
      var prev := board.tasks[id];
      var updated := MergeUpdate(prev, u);
      var changes := Changes(prev, u);
      var next := state.(board := board.(tasks := board.tasks[id := updated]));
      if |changes| > 0 then AddHistoryEntry(next, TaskUpdated(id, updated.title, changes, now))
      else next
  }

  /** deleteTask: drop the task and every listing of it, and log its last title. */
  function DeleteTask(state: AppState, id: TaskId, now: Timestamp): (r: AppState)
    ensures id !in state.board.tasks ==> r == state
    ensures id in state.board.tasks ==>
      && r.board.tasks == state.board.tasks - {id}
      && r.board.order == WithoutTask(state.board.order, id)
      && r.board.filters == state.board.filters
      && r.history == Take([TaskDeleted(id, state.board.tasks[id].title, now)] + state.history, HISTORY_LENGTH)
  {
    var board := state.board;
    if id !in board.tasks then state
    else
      var title := board.tasks[id].title;
      var next := state.(board := board.(tasks := board.tasks - {id}, order := WithoutTask(board.order, id)));
      AddHistoryEntry(next, TaskDeleted(id, title, now))
  }

  /** setSearchTerm: store the term as typed. */
  function SetSearchTerm(state: AppState, term: string): (r: AppState)
    ensures r.board.filters.searchTerm == term
    ensures r.board.filters.statusFilters == state.board.filters.statusFilters
    ensures r.board.tasks == state.board.tasks && r.board.order == state.board.order
    ensures r.history == state.history
  {
    state.(board := state.board.(filters := state.board.filters.(searchTerm := term)))
  }

  /** toggleStatusFilter: flip the one flag of column `c`. */
  function ToggleStatusFilter(state: AppState, c: ColumnId): (r: AppState)
    ensures r.board.filters.statusFilters.Get(c) == !state.board.filters.statusFilters.Get(c)
    ensures forall d :: d != c ==> r.board.filters.statusFilters.Get(d) == state.board.filters.statusFilters.Get(d)
    ensures r.board.filters.searchTerm == state.board.filters.searchTerm
    ensures r.board.tasks == state.board.tasks && r.board.order == state.board.order
    ensures r.history == state.history
  {
    var f := state.board.filters;
    state.(board := state.board.(filters := f.(statusFilters := f.statusFilters.Set(c, !f.statusFilters.Get(c)))))
  }

  /** clearFilters: no search term and every column shown. */
  function ClearFilters(state: AppState): (r: AppState)
    ensures r.board.filters.searchTerm == ""
    ensures forall c: ColumnId :: r.board.filters.statusFilters.Get(c)
    ensures r.board.tasks == state.board.tasks && r.board.order == state.board.order
    ensures r.history == state.history
  {
    state.(board := state.board.(filters := FilterState("", StatusFilters(true, true, true))))
  }
}
