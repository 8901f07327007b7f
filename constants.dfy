/** The fixed columns with their titles, the label table built from them, and the history capacity. */
module Constants {
  import opened Types

  datatype ColumnDef = ColumnDef(id: ColumnId, title: string)

  const COLUMNS: seq<ColumnDef> := [
    ColumnDef(Todo, "To-do"),
    ColumnDef(InProgress, "In progress"),
    ColumnDef(Done, "Done")
  ]

  /** The `reduce` that assigns `acc[col.id] = col.title` for each column in turn. */
  function LabelsOf(cols: seq<ColumnDef>, acc: map<ColumnId, string>): (r: map<ColumnId, string>)
    ensures forall c :: c in r <==> c in acc || exists i :: 0 <= i < |cols| && cols[i].id == c
  {
    if cols == [] then acc
    else LabelsOf(cols[1..], acc[cols[0].id := cols[0].title])
  }

  /**
   * Later assignments win: an id ends up labelled with the title of the last
   * column entry that names it. Entry `i` is that last entry when no entry
   * after it names the same id; earlier entries for the id may exist.
   */
  lemma {:induction false} LabelsOfTitle(cols: seq<ColumnDef>, acc: map<ColumnId, string>, i: nat)
    requires i < |cols|
    requires forall j :: i < j < |cols| ==> cols[j].id != cols[i].id
    ensures cols[i].id in LabelsOf(cols, acc)
    ensures LabelsOf(cols, acc)[cols[i].id] == cols[i].title
  {
    var acc' := acc[cols[0].id := cols[0].title];
    if i == 0 {
      LabelsOfKeeps(cols[1..], acc', cols[0].id);
    } else {
      LabelsOfTitle(cols[1..], acc', i - 1);
    }
  }

  /** A key that no later column names keeps the value it had in the accumulator. */
  lemma {:induction false} LabelsOfKeeps(cols: seq<ColumnDef>, acc: map<ColumnId, string>, c: ColumnId)
    requires c in acc
    requires forall j :: 0 <= j < |cols| ==> cols[j].id != c
    ensures LabelsOf(cols, acc)[c] == acc[c]
  {
    if cols != [] {
      LabelsOfKeeps(cols[1..], acc[cols[0].id := cols[0].title], c);
    }
  }

  const COLUMN_LABELS: map<ColumnId, string> := LabelsOf(COLUMNS, map[])

  /** How many history entries are kept. */
  const HISTORY_LENGTH: nat := 5

  /** The columns are exactly the three ids, once each, in board order. */
  lemma ColumnsAreTheThreeIds()
    ensures |COLUMNS| == 3
    ensures COLUMNS[0].id == Todo && COLUMNS[1].id == InProgress && COLUMNS[2].id == Done
    ensures forall j, k :: 0 <= j < k < |COLUMNS| ==> COLUMNS[j].id != COLUMNS[k].id
    ensures (set i | 0 <= i < |COLUMNS| :: COLUMNS[i].id) == {Todo, InProgress, Done}
  {
  }

  /** The label table is total and gives each column the title listed for it. */
  lemma ColumnLabelsMatchColumns()
    ensures forall c: ColumnId :: c in COLUMN_LABELS
    ensures forall i :: 0 <= i < |COLUMNS| ==> COLUMN_LABELS[COLUMNS[i].id] == COLUMNS[i].title
    ensures COLUMN_LABELS == map[Todo := "To-do", InProgress := "In progress", Done := "Done"]
  {
    ColumnsAreTheThreeIds();
    forall i | 0 <= i < |COLUMNS| ensures COLUMN_LABELS[COLUMNS[i].id] == COLUMNS[i].title {
      LabelsOfTitle(COLUMNS, map[], i);
    }
    assert COLUMN_LABELS[COLUMNS[0].id] == "To-do";
    assert COLUMN_LABELS[COLUMNS[1].id] == "In progress";
    assert COLUMN_LABELS[COLUMNS[2].id] == "Done";
  }
}
