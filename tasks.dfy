/** The empty board and the task lookup. */
module TaskUtils {
  import opened Wrappers
  import opened Types

  /** All three column lists empty. */
  function EmptyOrder(): (r: Order)
    ensures forall c: ColumnId :: r.Get(c) == []
  {
    Order([], [], [])
  }

  /** No tasks, no ids in any column, no search term and every column visible. */
  function EmptyBoard(): (b: BoardState)
    ensures b.tasks == map[]
    ensures forall c: ColumnId :: b.order.Get(c) == [] && b.filters.statusFilters.Get(c)
    ensures b.filters.searchTerm == ""
  {
    BoardState(
      map[],
      EmptyOrder(),
      FilterState("", StatusFilters(true, true, true)))
  }

  /** `tasks[id]`: the task stored under `id`, or nothing. */
  function GetTasksById(id: TaskId, tasks: map<TaskId, Task>): (r: Option<Task>)
    ensures r.Some? <==> id in tasks
    ensures r.Some? ==> r.value == tasks[id]
  {
    if id in tasks then Some(tasks[id]) else None
  }
}
