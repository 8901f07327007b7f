/**
 * The store object: it holds the board and the history, and each action
 * replaces both by what the matching updater computes from them.
 */
module BoardStore {
  import opened Wrappers
  import opened Types
  import opened TaskUtils
  import opened BoardInvariants
  import StoreActions
  import StoreProperties

  class Store {
    var board: BoardState
    var history: seq<HistoryAction>

    function State(): AppState
      reads this
    {
      AppState(board, history)
    }

    /** A consistent board and a history within capacity. */
    ghost predicate Valid()
      reads this
    {
      StoreProperties.Valid(State())
    }

    /** The initial store: the empty board and no history. */
    constructor ()
      ensures board == EmptyBoard() && history == []
      ensures Valid()
    {
      board := EmptyBoard();
      history := [];
      new;
      EmptyBoardConsistent();
    }

    /** Creates a task under the fresh id `id` and returns that id. */
    method AddTask(id: TaskId, title: string, description: Option<string>, now: Timestamp) returns (r: TaskId)
      modifies this
      ensures r == id
      ensures State() == StoreActions.AddTask(old(State()), id, title, description, now)
      ensures old(Valid()) && id !in old(board.tasks) ==> Valid()
    {
      var next := StoreActions.AddTask(State(), id, title, description, now);
      if Valid() && id !in board.tasks {
        StoreProperties.AddTaskPreservesConsistency(State(), id, title, description, now);
        assert StoreProperties.Valid(next);
      }
      board, history := next.board, next.history;
      assert State() == next;
      r := id;
    }

    method MoveTask(id: TaskId, target: ColumnId, targetIndex: Option<int>, now: Timestamp)
      modifies this
      ensures State() == StoreActions.MoveTask(old(State()), id, target, targetIndex, now)
      ensures old(Valid()) ==> Valid()
    {
      var next := StoreActions.MoveTask(State(), id, target, targetIndex, now);
      if Valid() {
        StoreProperties.StepPreservesValid(State(), StoreProperties.Move(id, target, targetIndex, now));
        assert StoreProperties.Valid(next);
      }
      board, history := next.board, next.history;
      assert State() == next;
    }

    method UpdateTask(id: TaskId, update: StoreActions.TaskUpdate, now: Timestamp)
      modifies this
      ensures State() == StoreActions.UpdateTask(old(State()), id, update, now)
      ensures old(Valid()) ==> Valid()
    {
      var next := StoreActions.UpdateTask(State(), id, update, now);
      if Valid() {
        StoreProperties.StepPreservesValid(State(), StoreProperties.Update(id, update, now));
        assert StoreProperties.Valid(next);
      }
      board, history := next.board, next.history;
      assert State() == next;
    }

    method DeleteTask(id: TaskId, now: Timestamp)
      modifies this
      ensures State() == StoreActions.DeleteTask(old(State()), id, now)
      ensures old(Valid()) ==> Valid()
    {
      var next := StoreActions.DeleteTask(State(), id, now);
      if Valid() {
        StoreProperties.StepPreservesValid(State(), StoreProperties.Delete(id, now));
        assert StoreProperties.Valid(next);
      }
      board, history := next.board, next.history;
      assert State() == next;
    }

    method SetSearchTerm(term: string)
      modifies this
      ensures State() == StoreActions.SetSearchTerm(old(State()), term)
      ensures board == old(board).(filters := old(board).filters.(searchTerm := term))
      ensures old(Valid()) ==> Valid()
    {
      var next := StoreActions.SetSearchTerm(State(), term);
      board, history := next.board, next.history;
    }

    method ToggleStatusFilter(c: ColumnId)
      modifies this
      ensures State() == StoreActions.ToggleStatusFilter(old(State()), c)
      ensures board.filters.statusFilters.Get(c) == !old(board).filters.statusFilters.Get(c)
      ensures forall d :: d != c ==> board.filters.statusFilters.Get(d) == old(board).filters.statusFilters.Get(d)
      ensures board.filters.searchTerm == old(board).filters.searchTerm
      ensures board.tasks == old(board).tasks && board.order == old(board).order
      ensures history == old(history)
      ensures old(Valid()) ==> Valid()
    {
      var next := StoreActions.ToggleStatusFilter(State(), c);
      board, history := next.board, next.history;
    }

    method ClearFilters()
      modifies this
      ensures State() == StoreActions.ClearFilters(old(State()))
      ensures board == old(board).(filters := EmptyBoard().filters)
      ensures old(Valid()) ==> Valid()
    {
      var next := StoreActions.ClearFilters(State());
      board, history := next.board, next.history;
    }
  }
}
