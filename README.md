# Kanban board state engine, in Dafny

This project models the state engine of a three-column kanban board and
proves properties of that model. The columns are To-do, In progress and
Done. The store keeps three things:

- a task table, mapping ids to tasks;
- one ordered id list per column;
- the filter settings.

It also keeps a log of the five most recent actions, newest first. The
store's seven actions are `addTask`, `moveTask`, `updateTask`,
`deleteTask`, `setSearchTerm`, `toggleStatusFilter` and `clearFilters`.
Each one computes a new board and a new log from the old ones.

Besides the store, the model covers four pieces of logic from the views:

- which ids a column shows under the filters, and the message shown when none are left;
- how a drag-and-drop turns into a `moveTask` call;
- the text of each history entry;
- the filter bar's count of active filters.

Layout, one module per file:

- `wrappers.dfy` (`Wrappers`): `Option<T>`.
- `seqs.dfy` (`Seqs`): the array operations the store uses. These are `filter(x => x !== v)`, `indexOf`, `splice(k, 0, v)` with JavaScript's clamping of `k`, and `slice(0, n)`.
- `text.dfy` (`Text`): `trim` (with the JavaScript whitespace set), ASCII `toLowerCase`, `includes` and `join`.
- `types.dfy` (`Types`): the entities: `Task`, `ColumnId`, `FilterState`, `Order`, `BoardState`, the five-variant `HistoryAction` and `AppState`.
- `constants.dfy` (`Constants`): `COLUMNS`, `COLUMN_LABELS` (built by the same fold as the source's `reduce`) and `HISTORY_LENGTH`.
- `tasks.dfy` (`TaskUtils`): the empty board and the task lookup.
- `invariants.dfy` (`BoardInvariants`): the three consistency conditions:
  - I1: every listed id is a task;
  - I2: no id sits in two columns;
  - I3: no column lists an id twice.
- `actions.dfy` (`StoreActions`): each store updater as a function from the old state to the new one.
- `store_properties.dfy` (`StoreProperties`): the lemmas about those updaters, and the invariant over every run of actions.
- `store.dfy` (`BoardStore`): the `Store` class. It has fields `board` and `history`. Its methods assign the updaters' results, and each method's contract ties the new state to the updater and states which invariant it keeps.
- `column.dfy` (`ColumnView`), `board.dfy` (`BoardDrop`), `task_history.dfy` (`TaskHistoryText`) and `filter_bar.dfy` (`FilterBar`): the view logic listed above.

Values the store draws from outside become parameters:

- the id from `nanoid()`;
- the timestamp from `nowISO()`.

`addTask` reads the clock twice, once for the task and once for the log entry. The model uses a single `now` for both reads.

In these places the code behaves differently from what one might expect, and the model follows the code:

- `addTask` stores the title exactly as given. Only the UI trims it, before calling.
- `splice` with a negative index counts back from the end of the list, and only an index below minus the length becomes 0, as in JavaScript.
- The search term counts as present when `trim()` leaves something, but it is matched untrimmed.
- A card's drop edge is "top", "bottom" or none; only "bottom" moves the index one further.
- The history panel names columns "To Do", "In Progress" and "Done". These differ from the `COLUMN_LABELS` of the column headers ("To-do", "In progress", "Done").

## Model

| member | source | states |
|---|---|---|
| Types.ParseColumnId | src/store/types.ts:9 | exactly the three keys "todo", "inprogress", "done" are columns, and each parses back to its own key |
| Types.ColumnKeyRoundTrip | src/store/types.ts:9 | every column's key parses back to that column |
| Constants.LabelsOf | src/constants.ts:9-15 | the fold's result has a key for every column it saw and every key of the accumulator |
| Constants.LabelsOfTitle | src/constants.ts:9-15 | after the fold, the last entry naming an id (no later entry names it) gives that id its title, so later assignments overwrite earlier ones |
| Constants.LabelsOfKeeps | src/constants.ts:9-15 | an accumulator key that no entry names keeps its value through the fold |
| Constants.ColumnsAreTheThreeIds | src/constants.ts:3-7 | COLUMNS lists three distinct ids in the order To-do, In progress, Done, and they are all the columns |
| Constants.ColumnLabelsMatchColumns | src/constants.ts:9-15 | COLUMN_LABELS is total and maps each id to the title of its COLUMNS entry |
| TaskUtils.EmptyOrder | src/utils/tasks.ts:5-9 | all three column lists empty |
| TaskUtils.EmptyBoard | src/utils/tasks.ts:5-23 | no tasks, every column list empty, no search term and every column visible |
| TaskUtils.GetTasksById | src/utils/tasks.ts:27-29 | finds a task exactly when the id is a key, and then the stored one |
| BoardInvariants.EmptyBoardConsistent | src/utils/tasks.ts:11-23 | the initial board satisfies I1, I2 and I3 |
| Seqs.Without | src/store/index.ts:79-81 | keeps every occurrence of each element other than the id (the same multiset, with the id's count set to 0), in their order (an order-preserving subsequence), and is shorter exactly when the id was there |
| Seqs.WithoutInsertAt | src/store/index.ts:79-87 | filtering out an id after splicing it in gives the filtered original list |
| Seqs.IndexOf | src/store/index.ts:101 | -1 exactly when absent; otherwise the first position holding the value |
| Seqs.SpliceStart | src/store/index.ts:85-86 | the position splice inserts at is in range, equals an in-range index, is the end for any larger index, counts a negative index back from the end, and is 0 below minus the length |
| Seqs.InsertAt | src/store/index.ts:86 | one element longer, the value at the position, the original before and after it |
| Seqs.Take | src/store/index.ts:9 | the first n elements, or all when fewer |
| Seqs.TakeAbsorbs | src/store/index.ts:9 | cutting the old log before prefixing it does not change a later cut |
| Text.Trim | src/components/Column.tsx:59 | the result is the slice of the input between an all-whitespace head and an all-whitespace tail, empty exactly when the input is all whitespace, with no whitespace at either end |
| Text.Includes | src/components/Column.tsx:65-67 | holds exactly when the term occurs at some position |
| Text.ToLower | src/components/Column.tsx:60 | same length; each ASCII capital becomes its small letter and every other character is kept |
| Text.JoinAppend | src/components/TaskHistory.tsx:61 | joining one more piece appends the separator and the piece |
| Text.JoinPlaces | src/components/TaskHistory.tsx:61 | each piece sits in the joined text at its offset, with the separator right after every piece but the last |
| Text.JoinLength | src/components/TaskHistory.tsx:61 | the joined text ends right after its last piece |
| Text.JoinAfterHead | src/components/TaskHistory.tsx:61 | a fixed head followed by joined pieces starts with the head, lists the pieces in order and ends with the last one |
| StoreActions.AddHistoryEntry | src/store/index.ts:8-11 | board unchanged; new entry first; older entries shift down one; length min(old+1, 5) |
| StoreActions.AddTask | src/store/index.ts:34-61 | the task (`NewTask`: id, title, description, creation time, no update time) stored under its id with title and description verbatim; the id first in To-do; other tasks, lists and filters unchanged; a task_created entry logged |
| StoreActions.WithoutTask | src/store/index.ts:78-82 | each column list with every copy of the id filtered out |
| StoreActions.CurrentColumn | src/store/index.ts:72-76 | none exactly when no column lists the id, otherwise the first column, in the order To-do, In progress, Done, whose list holds it |
| StoreActions.MovedOrder | src/store/index.ts:78-87 | the target list is the filtered list with the id spliced in at the clamped requested index (the end when none is given); every other list is the filtered one |
| StoreActions.MoveEntry | src/store/index.ts:94-112 | a task_reordered entry exactly when the target is the current column, carrying the old indexOf and the raw requested index; otherwise a task_moved entry from the current column to the target; both with the task's id, title and time |
| StoreActions.MoveTask | src/store/index.ts:63-116 | tasks and filters unchanged; no change at all when the id is not a task or is in no list |
| StoreActions.MergeUpdate | src/store/index.ts:127 | provided title and description replace the old ones, an erased description is gone, id and timestamps are kept |
| StoreActions.EmptyIfFalsy | src/store/index.ts:137-138 | reads "empty" exactly for a missing, empty or literally "empty" description, and gives any non-empty description back as it is |
| StoreActions.Changes | src/store/index.ts:129-140 | one entry per changed field, title difference first and description difference last |
| StoreActions.UpdateTask | src/store/index.ts:118-164 | no change for an unknown id; otherwise the merged record written; logged (with the new title) exactly when the change list is non-empty |
| StoreActions.DeleteTask | src/store/index.ts:166-196 | no change for an unknown id; otherwise the task and every listing of it removed and a task_deleted entry with its title logged |
| StoreActions.SetSearchTerm | src/store/index.ts:198-212 | the term stored as typed; flags, tasks, lists and history unchanged |
| StoreActions.ToggleStatusFilter | src/store/index.ts:214-235 | that column's flag flipped, the other flags, the term, tasks, lists and history unchanged |
| StoreActions.ClearFilters | src/store/index.ts:237-252 | empty term and every flag on; tasks, lists and history unchanged |
| StoreProperties.AddTaskPreservesConsistency | src/store/index.ts:34-61 | with a fresh id, addTask keeps I1, I2 and I3 |
| StoreProperties.AddTaskWithListedIdDuplicates | src/store/index.ts:45 | an id already in To-do gets one more copy there, so it occurs at least twice |
| StoreProperties.AddThenDeleteRestores | src/store/index.ts:34-196 | creating a fresh task and deleting it restores the task table and the lists |
| StoreProperties.CreatedEntries | src/store/index.ts:50-55 | one task_created entry per creation, in order |
| StoreProperties.AddTasksHistory | src/store/index.ts:8-57 | after any run of creations the log is the new entries newest first, then the old log, cut to five |
| StoreProperties.ManyCreationsKeepNewestFive | src/store/index.ts:8-11 | after five or more creations on an empty log it holds exactly the last five, newest first |
| StoreProperties.MoveTaskOrder | src/store/index.ts:78-92 | moving a listed task replaces only the column lists |
| StoreProperties.MovedOrderPlacement | src/store/index.ts:78-87 | the task leaves every other column; in the target it is spliced into the filtered list at the clamped index (the end when absent or too large); the other ids keep their columns and order |
| StoreProperties.MovedOrderConsistent | src/store/index.ts:78-87 | the new lists keep I1, I2 and I3 |
| StoreProperties.MoveTaskPlacement | src/store/index.ts:63-116 | the same placement facts for the whole moveTask |
| StoreProperties.MoveTaskHistory | src/store/index.ts:72-114 | logged as task_reordered exactly when the target is the task's current column (the first one listing it), with the old index and the raw requested index; otherwise as task_moved from that column; older entries shift down |
| StoreProperties.MoveOfDuplicatedIdIsFromTodo | src/store/index.ts:72-112 | an id listed in both To-do and Done, moved to Done, is logged as a move from To-do, leaves To-do entirely and is appended once to Done |
| StoreProperties.MoveTaskPreservesConsistency | src/store/index.ts:63-116 | moveTask keeps I1, I2 and I3 |
| StoreProperties.MoveWithinColumnWithoutIndexAppends | src/store/index.ts:84-86 | a move within a column without an index sends the task to the end, logged as a reorder |
| StoreProperties.ReorderedList | src/store/index.ts:78-87 | moving a To-do task to index 0 puts it in front of the other To-do tasks, which keep their order |
| StoreProperties.ReorderScenario | src/store/index.ts:84-102 | To-do [A, B, C] with C moved to 0 gives [C, A, B], logged as a reorder from 2 to 0 |
| StoreProperties.UpdateTaskPreservesConsistency | src/store/index.ts:142-148 | an update keeps I1, I2 and I3 |
| StoreProperties.IdenticalUpdateIsSilent | src/store/index.ts:127-162 | providing the values a task already has changes nothing and logs nothing |
| StoreProperties.UnloggedUpdateOnlyBlanksOrErases | src/store/index.ts:127-140 | an unlogged update at most blanks the title or erases the description; a logged one changes the record |
| StoreProperties.ErasingDescriptionIsUnlogged | src/store/index.ts:127-136 | erasing a description removes it and logs nothing |
| StoreProperties.EmptyTitleIsWrittenUnlogged | src/store/index.ts:127-130 | an empty title is written but not logged |
| StoreProperties.MissingToEmptyDescriptionLogsEmptyToEmpty | src/store/index.ts:133-139 | setting "" on a missing description is logged as "empty" to "empty" |
| StoreProperties.BothChangesInOrder | src/store/index.ts:129-140 | with both fields changed, the change list is the title difference then the description difference |
| StoreProperties.DeleteTaskPreservesConsistency | src/store/index.ts:166-196 | deleteTask keeps I1, I2 and I3 and leaves no trace of the id |
| StoreProperties.ToggleTwiceRestores | src/store/index.ts:214-235 | toggling a column twice restores the state |
| StoreProperties.ClearedFiltersAreDefault | src/store/index.ts:237-252 | the cleared filters are those of the empty board |
| StoreProperties.StepPreservesValid | src/store/index.ts:34-252 | every action keeps the board consistent and the log within five (creation with a fresh id) |
| StoreProperties.RunFromInitialIsValid | src/store/index.ts:31-32 | every state reachable from the initial store with fresh ids is consistent with a log of at most five |
| StoreProperties.RunPreservesValid | src/store/index.ts:34-252 | any run of actions from a valid state stays valid |
| BoardStore.Store.constructor | src/store/index.ts:31-32 | the store starts with the empty board and no history, and is valid |
| BoardStore.Store.AddTask | src/store/index.ts:34-61 | returns the id; the new state is addTask's; validity kept for a fresh id |
| BoardStore.Store.MoveTask | src/store/index.ts:63-116 | the new state is moveTask's; validity kept |
| BoardStore.Store.UpdateTask | src/store/index.ts:118-164 | the new state is updateTask's; validity kept |
| BoardStore.Store.DeleteTask | src/store/index.ts:166-196 | the new state is deleteTask's; validity kept |
| BoardStore.Store.SetSearchTerm | src/store/index.ts:198-212 | the new state is setSearchTerm's: only the term changes; validity kept |
| BoardStore.Store.ToggleStatusFilter | src/store/index.ts:214-235 | the new state is toggleStatusFilter's: only that column's flag flips; validity kept |
| BoardStore.Store.ClearFilters | src/store/index.ts:237-252 | the new state is clearFilters': the filters become the defaults; validity kept |
| ColumnView.KeepMatching | src/components/Column.tsx:61-70 | an order-preserving subsequence holding every occurrence of each listed id whose task exists and matches, and no other id (`Matches`: the lower-cased title, or a present lower-cased description, contains the term) |
| ColumnView.KeepMatchingAll | src/components/Column.tsx:61-70 | nothing is dropped when every id names a matching task |
| ColumnView.FilteredTasks | src/components/Column.tsx:48-74 | a subsequence of the column; empty when the column is hidden; the whole column for a blank term; otherwise every occurrence of each listed id whose task exists and whose lower-cased title or present description contains the lower-cased untrimmed term, and no other id |
| ColumnView.EmptyColumnMessage | src/components/Column.tsx:107-111 | a message exactly when no card is shown for a non-empty column; none for an empty column or a visible column with a blank term; "Column hidden by filter" for a hidden non-empty column; "No tasks match search criteria" exactly when the column is visible and non-empty, the term is not blank and no listed task matches |
| ColumnView.HideDoneThenClear | src/components/Column.tsx:55-57 | hiding Done empties it and leaves the other columns; clearing shows every column in full |
| BoardDrop.FindColumnTarget | src/components/Board.tsx:24-25 | none exactly when no target names a column; otherwise the column of the first one that does |
| BoardDrop.FindTaskTarget | src/components/Board.tsx:30 | none exactly when no target has a non-empty task id; otherwise the first such target |
| BoardDrop.HandleDrop | src/components/Board.tsx:18-54 | no move without a column target; a move of the dragged task to that column; an index within 0..length of the list before the move; no index without a card target |
| BoardDrop.DropOnCard | src/components/Board.tsx:32-47 | no move when the card is not listed in the column; otherwise its index (`EdgeIndex`), plus one for the bottom edge |
| BoardDrop.DropOnColumnAppends | src/components/Board.tsx:48-51 | a drop on the column's empty area sends the task to the end of that column |
| BoardDrop.DownwardDropOvershoots | src/components/Board.tsx:39-46 | To-do [a, b, c] with a dropped on b's bottom edge asks for index 2 and gives [b, c, a] |
| BoardDrop.HandleDropFixed | src/components/Board.tsx:18-54 | no move without a column target; a move of the dragged task to that column; no index without a card target, an index whenever a card target yields a move; the index within 0..length of the list with the dragged task taken out |
| BoardDrop.FixedAgreesAcrossColumns | src/components/Board.tsx:38-46 | a drag in from another column gets the same request as before the correction |
| BoardDrop.InsertNextTo | src/components/Board.tsx:44-45 | splicing in at a card's edge index puts the task right above the card, or right below it for the bottom edge |
| BoardDrop.FixedDropLandsNextToTarget | src/components/Board.tsx:33-46 | with the correction, a drop on a listed card puts the task right above it, or right below for the bottom edge |
| TaskHistoryText.ColumnName | src/components/TaskHistory.tsx:37-57 | To-do reads "To Do", In progress reads "In Progress" and Done reads "Done" |
| TaskHistoryText.ColumnNameInjective | src/components/TaskHistory.tsx:37-57 | different columns have different names |
| TaskHistoryText.ActionText | src/components/TaskHistory.tsx:32-67 | every entry's text starts with its kind's tag and is never "Unknown action" |
| TaskHistoryText.TextDeterminesKind | src/components/TaskHistory.tsx:32-67 | equal texts come from entries of the same kind |
| TaskHistoryText.CreatedOrDeletedTextHoldsTitle | src/components/TaskHistory.tsx:33-63 | a creation or deletion text is exactly `Created task "` (or `Deleted task "`), then the title, then a closing quote |
| TaskHistoryText.MovedTextHoldsTitleAndColumns | src/components/TaskHistory.tsx:36-50 | a move text is exactly `Moved "`, the title, then `" from ` with the source column's panel name and ` to ` with the target's |
| TaskHistoryText.ReorderedTextHoldsTitleAndColumn | src/components/TaskHistory.tsx:51-59 | a reorder text is exactly `Reordered "`, the title, then `" in ` with the column's panel name; no index appears |
| TaskHistoryText.CreatedTextDeterminesTitle | src/components/TaskHistory.tsx:33-63 | two creation (or deletion) texts are equal only for equal titles |
| TaskHistoryText.ReorderedTextNamesColumn | src/components/TaskHistory.tsx:51-59 | a reorder text ignores the indices and determines the column |
| TaskHistoryText.MovedTextNamesTarget | src/components/TaskHistory.tsx:36-50 | a move text determines the target column |
| TaskHistoryText.UpdatedTextListsChanges | src/components/TaskHistory.tsx:60-61 | an update text starts with `Updated "<title>": `, then holds each change at its offset in stored order with `, ` between neighbours, and ends with the last change, with nothing after it; with no changes it is the head alone |
| FilterBar.HiddenColumns | src/components/FilterBar.tsx:30-32 | at most three; zero exactly when every column shows, three exactly when none does |
| FilterBar.ActiveFilterCount | src/components/FilterBar.tsx:28-32 | one for an active search plus the number of hidden columns, at most four |
| FilterBar.ActiveIffCounted | src/components/FilterBar.tsx:22-32 | `HasActiveFilters` (a non-blank trimmed term or a hidden column) holds exactly when the count is positive |
| FilterBar.BlankTermIsInactive | src/components/FilterBar.tsx:23-29 | a whitespace-only term counts for nothing; only hidden columns count then |
| FilterBar.DefaultFiltersInactive | src/components/FilterBar.tsx:22-32 | the empty board's filters and the cleared filters count zero and are not active |
| FilterBar.ToggleChangesCountByOne | src/components/FilterBar.tsx:28-32 | hiding a column adds one to the count, showing it takes one away |

## Left out

- Persistence to `localStorage` (the `persist` wrapper and `PERSIST_KEY`) is not modelled: it is I/O.
- `nanoid` and `nowISO` are parameters. `addTask` reads the clock twice (task and log entry); the model takes one `now` for both.
- The defensive fallbacks `state.board ?? getEmptyBoard()` and `filters || {...}` are not modelled: the board and its filters are always present in the model.
- The board's optional `ui` field is dropped: `getEmptyBoard` writes `ui: { filter: "" }`, but nothing in the store or the views reads it.
- The `updatedAt` stamp of a task is carried as data; nothing writes it, as in the source.
- MoveTask: the requested index is an integer or absent; a fractional, NaN or infinite `toIndex` (which `splice` truncates or maps to 0 or to the end, while the log stores it raw) is not modelled. The board's own drop handler only passes integers.
- An update that sets `title: undefined` explicitly is not modelled: the title update is either absent or a string.
- Ids that are inherited object properties (such as `constructor`) are not modelled: the task table is a plain map.
- `toLowerCase` is modelled for ASCII letters only: full Unicode case mapping is out of scope.
- The drag-and-drop library (`draggable`, `dropTargetForElements`, the closest-edge hit test, `canDrop`) is not modelled: the resolved drop targets are the input. `canDrop`'s refusal of a card's own drag appears as a precondition of `BoardDrop.FixedDropLandsNextToTarget`.
- `formatTimestamp` is not modelled: it depends on the wall clock and the locale.
- Rendering, component state, styling and the icon choice are not modelled. This covers the dialogs, the add button and the task card; the UI's trimming of titles is left to callers.

## Findings

| source | as written | input that shows it | evidently intended | confidence | as-written member | corrected member |
|---|---|---|---|---|---|---|
| src/components/Board.tsx:39-46 | the drop index is the target card's position in the column list that still holds the dragged task, but `moveTask` splices into the list with the dragged task removed | To-do [a, b, c]; drag a onto the bottom edge of b: index 2 is requested and the column becomes [b, c, a] | a lands right below b: [b, a, c] | not executed | BoardDrop.DownwardDropOvershoots | BoardDrop.FixedDropLandsNextToTarget |
