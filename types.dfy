/** The board's entities: tasks, columns, filters, the board itself and the history entries. */
module Types {
  import opened Wrappers

  type TaskId = string
  type Timestamp = string

  /** The three columns; no other column can exist. */
  datatype ColumnId = Todo | InProgress | Done

  /** The string each column is keyed by. */
  function ColumnKey(c: ColumnId): (k: string)
    ensures k in {"todo", "inprogress", "done"}
  {
    match c
    case Todo => "todo"
    case InProgress => "inprogress"
    case Done => "done"
  }

  /** Reading a column key; anything other than the three keys is not a column. */
  function ParseColumnId(k: string): (r: Option<ColumnId>)
    ensures r.Some? <==> k in {"todo", "inprogress", "done"}
    ensures r.Some? ==> ColumnKey(r.value) == k
  {
    if k == "todo" then Some(Todo)
    else if k == "inprogress" then Some(InProgress)
    else if k == "done" then Some(Done)
    else None
  }

  lemma ColumnKeyRoundTrip(c: ColumnId)
    ensures ParseColumnId(ColumnKey(c)) == Some(c)
  {
  }

  /** A task; the description and both timestamps may be missing. */
  datatype Task = Task(
    id: TaskId,
    title: string,
    description: Option<string>,
    createdAt: Option<Timestamp>,
    updatedAt: Option<Timestamp>)

  /** One visibility flag per column. */
  datatype StatusFilters = StatusFilters(todo: bool, inprogress: bool, done: bool)
  {
    function Get(c: ColumnId): bool
    {
      match c
      case Todo => todo
      case InProgress => inprogress
      case Done => done
    }

    /** `{ ...statusFilters, [c]: b }`. */
    function Set(c: ColumnId, b: bool): (r: StatusFilters)
      ensures r.Get(c) == b
      ensures forall d :: d != c ==> r.Get(d) == Get(d)
    {
      match c
      case Todo => this.(todo := b)
      case InProgress => this.(inprogress := b)
      case Done => this.(done := b)
    }
  }

  datatype FilterState = FilterState(searchTerm: string, statusFilters: StatusFilters)

  /** One ordered id list per column. */
  datatype Order = Order(todo: seq<TaskId>, inprogress: seq<TaskId>, done: seq<TaskId>)
  {
    function Get(c: ColumnId): seq<TaskId>
    {
      match c
      case Todo => todo
      case InProgress => inprogress
      case Done => done
    }

    /** `{ ...order, [c]: ids }`. */
    function Set(c: ColumnId, ids: seq<TaskId>): (r: Order)
      ensures r.Get(c) == ids
      ensures forall d :: d != c ==> r.Get(d) == Get(d)
    {
      match c
      case Todo => this.(todo := ids)
      case InProgress => this.(inprogress := ids)
      case Done => this.(done := ids)
    }
  }

  datatype BoardState = BoardState(tasks: map<TaskId, Task>, order: Order, filters: FilterState)

  /** A history entry: five kinds, each naming the task, its title and when it happened. */
  datatype HistoryAction =
    | TaskCreated(taskId: TaskId, taskTitle: string, timestamp: Timestamp)
    | TaskMoved(taskId: TaskId, taskTitle: string, fromColumn: ColumnId, toColumn: ColumnId, timestamp: Timestamp)
    | TaskReordered(taskId: TaskId, taskTitle: string, column: ColumnId, fromIndex: int, toIndex: int, timestamp: Timestamp)
    | TaskUpdated(taskId: TaskId, taskTitle: string, changes: seq<string>, timestamp: Timestamp)
    | TaskDeleted(taskId: TaskId, taskTitle: string, timestamp: Timestamp)

  /** The whole store: the board and the newest-first history. */
  datatype AppState = AppState(board: BoardState, history: seq<HistoryAction>)
}
