/** The filter bar's summary of which filters are in force. */
module FilterBar {
  import opened Text
  import opened Types
  import TaskUtils
  import StoreActions

  /** A search term counts once trimming leaves something. */
  predicate SearchActive(f: FilterState)
  {
    Trim(f.searchTerm) != ""
  }

  /** hasActiveFilters: a search term or a hidden column. */
  predicate HasActiveFilters(f: FilterState)
  {
    SearchActive(f) || !f.statusFilters.todo || !f.statusFilters.inprogress || !f.statusFilters.done
  }

  /** The number of hidden columns. */
  function HiddenColumns(f: FilterState): (n: nat)
    ensures n <= 3
    ensures n == 0 <==> forall c: ColumnId :: f.statusFilters.Get(c)
    ensures n == 3 <==> forall c: ColumnId :: !f.statusFilters.Get(c)
  {
    assert f.statusFilters.todo == f.statusFilters.Get(Todo);
    assert f.statusFilters.inprogress == f.statusFilters.Get(InProgress);
    assert f.statusFilters.done == f.statusFilters.Get(Done);
    (if f.statusFilters.todo then 0 else 1)
    + (if f.statusFilters.inprogress then 0 else 1)
    + (if f.statusFilters.done then 0 else 1)
  }

  /** activeFilterCount: one for an active search term and one per hidden column. */
  function ActiveFilterCount(f: FilterState): (n: nat)
    ensures n <= 4
    ensures n == (if SearchActive(f) then 1 else 0) + HiddenColumns(f)
  {
    (if Trim(f.searchTerm) != "" then 1 else 0)
    + (if f.statusFilters.todo then 0 else 1)
    + (if f.statusFilters.inprogress then 0 else 1)
    + (if f.statusFilters.done then 0 else 1)
  }

  /** The clear button shows exactly when there is something to count. */
  lemma ActiveIffCounted(f: FilterState)
    ensures HasActiveFilters(f) <==> ActiveFilterCount(f) > 0
  {
  }

  /** A term of spaces, tabs or line breaks filters nothing. */
  lemma BlankTermIsInactive(f: FilterState)
    requires IsBlank(f.searchTerm)
    ensures !SearchActive(f)
    ensures HasActiveFilters(f) <==> exists c: ColumnId :: !f.statusFilters.Get(c)
    ensures ActiveFilterCount(f) == HiddenColumns(f)
  {
    if !f.statusFilters.todo {
      assert !f.statusFilters.Get(Todo);
    } else if !f.statusFilters.inprogress {
      assert !f.statusFilters.Get(InProgress);
    } else if !f.statusFilters.done {
      assert !f.statusFilters.Get(Done);
    }
  }

  /** The filters of a new board, and those clearFilters restores, count nothing. */
  lemma DefaultFiltersInactive(s: AppState)
    ensures !HasActiveFilters(TaskUtils.EmptyBoard().filters) && ActiveFilterCount(TaskUtils.EmptyBoard().filters) == 0
    ensures var f := StoreActions.ClearFilters(s).board.filters; !HasActiveFilters(f) && ActiveFilterCount(f) == 0
  {
    var f := StoreActions.ClearFilters(s).board.filters;
    assert IsBlank(f.searchTerm);
    assert IsBlank(TaskUtils.EmptyBoard().filters.searchTerm);
  }

  /** Hiding one more column adds one to the count; showing it again takes it back. */
  lemma ToggleChangesCountByOne(s: AppState, c: ColumnId)
    ensures var f, g := s.board.filters, StoreActions.ToggleStatusFilter(s, c).board.filters;
      ActiveFilterCount(g) == if f.statusFilters.Get(c) then ActiveFilterCount(f) + 1 else ActiveFilterCount(f) - 1
  {
    var f, g := s.board.filters, StoreActions.ToggleStatusFilter(s, c).board.filters;
    assert g.statusFilters.Get(c) == !f.statusFilters.Get(c);
    assert forall d: ColumnId :: d != c ==> g.statusFilters.Get(d) == f.statusFilters.Get(d);
    assert g.statusFilters.todo == g.statusFilters.Get(Todo);
    assert g.statusFilters.inprogress == g.statusFilters.Get(InProgress);
    assert g.statusFilters.done == g.statusFilters.Get(Done);
  }
}
