/**
 * What one column shows: its ids, filtered by the column's visibility flag
 * and by the search term, and the message shown when nothing is left.
 */
module ColumnView {
  import opened Wrappers
  import opened Seqs
  import opened Text
  import opened Types
  import StoreActions

  /** A task matches an already lower-cased term by its title or by a description it has. */
  predicate Matches(t: Task, term: string)
  {
    Includes(ToLower(t.title), term)
    || (t.description.Some? && Includes(ToLower(t.description.value), term))
  }

  /** The ids whose task exists and matches `term`, in their order in `ids`. */
  function KeepMatching(ids: seq<TaskId>, tasks: map<TaskId, Task>, term: string): (r: seq<TaskId>)
    ensures IsSubsequence(r, ids)
    ensures forall x :: x in r <==> x in ids && x in tasks && Matches(tasks[x], term)
    ensures forall x :: multiset(r)[x] == if x in tasks && Matches(tasks[x], term) then multiset(ids)[x] else 0
  {
    if ids == [] then []
    else
      var rest := KeepMatching(ids[1..], tasks, term);
      assert ids == [ids[0]] + ids[1..];
      if ids[0] in tasks && Matches(tasks[ids[0]], term) then
        assert ([ids[0]] + rest)[1..] == rest;
        [ids[0]] + rest
      else
        assert rest == [] || rest[0] != ids[0];
        rest
  }

  /** Nothing is dropped when every id names a matching task. */
  lemma {:induction false} KeepMatchingAll(ids: seq<TaskId>, tasks: map<TaskId, Task>, term: string)
    requires forall x :: x in ids ==> x in tasks && Matches(tasks[x], term)
    ensures KeepMatching(ids, tasks, term) == ids
  {
    if ids != [] {
      KeepMatchingAll(ids[1..], tasks, term);
    }
  }

  /** The ids column `col` lists once the filters are applied. */
  function FilteredTasks(b: BoardState, col: ColumnId): (r: seq<TaskId>)
    ensures IsSubsequence(r, b.order.Get(col))
    ensures !b.filters.statusFilters.Get(col) ==> r == []
    ensures b.filters.statusFilters.Get(col) && IsBlank(b.filters.searchTerm) ==> r == b.order.Get(col)
    ensures b.filters.statusFilters.Get(col) && !IsBlank(b.filters.searchTerm) ==>
      forall x :: x in r <==>
        x in b.order.Get(col) && x in b.tasks && Matches(b.tasks[x], ToLower(b.filters.searchTerm))
    ensures b.filters.statusFilters.Get(col) && !IsBlank(b.filters.searchTerm) ==>
      forall x :: multiset(r)[x] ==
        if x in b.tasks && Matches(b.tasks[x], ToLower(b.filters.searchTerm)) then multiset(b.order.Get(col))[x] else 0
  {
    if !b.filters.statusFilters.Get(col) then []
    else if Trim(b.filters.searchTerm) != "" then
      KeepMatching(b.order.Get(col), b.tasks, ToLower(b.filters.searchTerm))
    else
      IsSubsequenceRefl(b.order.Get(col));
      b.order.Get(col)
  }

  const HIDDEN_MESSAGE := "Column hidden by filter"
  const NO_MATCH_MESSAGE := "No tasks match search criteria"

  /** The placeholder shown instead of cards, if any. */
  function EmptyColumnMessage(b: BoardState, col: ColumnId): (m: Option<string>)
    ensures m.Some? <==> FilteredTasks(b, col) == [] && b.order.Get(col) != []
    ensures m.Some? ==> (m == Some(HIDDEN_MESSAGE) <==> !b.filters.statusFilters.Get(col))
    ensures m.Some? ==> m == Some(HIDDEN_MESSAGE) || m == Some(NO_MATCH_MESSAGE)
    ensures b.order.Get(col) == [] ==> m == None
    ensures b.order.Get(col) != [] && !b.filters.statusFilters.Get(col) ==> m == Some(HIDDEN_MESSAGE)
    ensures b.filters.statusFilters.Get(col) && IsBlank(b.filters.searchTerm) ==> m == None
    ensures m == Some(NO_MATCH_MESSAGE) <==>
      b.order.Get(col) != [] && b.filters.statusFilters.Get(col) && !IsBlank(b.filters.searchTerm) &&
      forall x :: x in b.order.Get(col) ==> !(x in b.tasks && Matches(b.tasks[x], ToLower(b.filters.searchTerm)))
  {
    var shown := FilteredTasks(b, col);
    if |shown| == 0 && |b.order.Get(col)| > 0 then
      if !b.filters.statusFilters.Get(col) then Some(HIDDEN_MESSAGE) else
        Some(NO_MATCH_MESSAGE)
    else
      assert shown != [] ==> shown[0] in shown;
      None
  }

  /**
   * Hiding the done column empties it and leaves the others as they were;
   * clearing the filters afterwards shows every column in full.
   */
  lemma HideDoneThenClear(s: AppState)
    requires forall c: ColumnId :: s.board.filters.statusFilters.Get(c)
    ensures var t := StoreActions.ToggleStatusFilter(s, Done);
      FilteredTasks(t.board, Done) == [] &&
      FilteredTasks(t.board, Todo) == FilteredTasks(s.board, Todo) &&
      FilteredTasks(t.board, InProgress) == FilteredTasks(s.board, InProgress)
    ensures var u := StoreActions.ClearFilters(StoreActions.ToggleStatusFilter(s, Done));
      forall c: ColumnId :: FilteredTasks(u.board, c) == s.board.order.Get(c)
  {
    var u := StoreActions.ClearFilters(StoreActions.ToggleStatusFilter(s, Done));
    assert IsBlank(u.board.filters.searchTerm);
  }
}
