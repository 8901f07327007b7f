/** The one-line text the history panel shows for each logged action. */
module TaskHistoryText {
  import opened Types
  import opened Text

  /** The column names of the history panel; anything that is neither To-do nor In progress reads "Done". */
  function ColumnName(c: ColumnId): (n: string)
    ensures c == Todo ==> n == "To Do"
    ensures c == InProgress ==> n == "In Progress"
    ensures c == Done ==> n == "Done"
  {
    if c == Todo then "To Do"
    else if c == InProgress then "In Progress"
    else "Done"
  }

  /** The three names end in different letters. */
  lemma ColumnNameLastLetter(c: ColumnId)
    ensures var n := ColumnName(c);
      |n| > 0 && n[|n| - 1] == (match c case Todo => 'o' case InProgress => 's' case Done => 'e')
  {
  }

  /** Different columns get different names. */
  lemma ColumnNameInjective(c: ColumnId, d: ColumnId)
    requires ColumnName(c) == ColumnName(d)
    ensures c == d
  {
    ColumnNameLastLetter(c);
    ColumnNameLastLetter(d);
  }

  /** Two texts that end with column names, and are equal, name the same column. */
  lemma SameEndingSameColumn(t: string, u: string, pre: string, c: ColumnId, d: ColumnId)
    requires t == u && EndsWith(t, pre + ColumnName(c)) && EndsWith(u, pre + ColumnName(d))
    ensures c == d
  {
    var n, m := ColumnName(c), ColumnName(d);
    ColumnNameLastLetter(c);
    ColumnNameLastLetter(d);
    assert t[|t| - 1] == (pre + n)[|pre + n| - 1] == n[|n| - 1];
    assert u[|u| - 1] == (pre + m)[|pre + m| - 1] == m[|m| - 1];
  }

  const UNKNOWN_ACTION := "Unknown action"

  const CREATED_PREFIX := "Created task \""
  const MOVED_PREFIX := "Moved \""
  const REORDERED_PREFIX := "Reordered \""
  const UPDATED_PREFIX := "Updated \""
  const DELETED_PREFIX := "Deleted task \""

  /** getActionText: a sentence naming the action and the task's title. */
  function ActionText(a: HistoryAction): (t: string)
    ensures a.TaskCreated? ==> StartsWith(t, CREATED_PREFIX)
    ensures a.TaskMoved? ==> StartsWith(t, MOVED_PREFIX) && EndsWith(t, " to " + ColumnName(a.toColumn))
    ensures a.TaskReordered? ==> StartsWith(t, REORDERED_PREFIX) && EndsWith(t, " in " + ColumnName(a.column))
    ensures a.TaskUpdated? ==> StartsWith(t, UPDATED_PREFIX)
    ensures a.TaskDeleted? ==> StartsWith(t, DELETED_PREFIX)
    ensures t != UNKNOWN_ACTION
  {
    match a
    case TaskCreated(_, title, _) =>
      Framed(CREATED_PREFIX, title, "\"");
      CREATED_PREFIX + title + "\""
    case TaskMoved(_, title, from, to, _) =>
      var middle, last := title + "\" from " + ColumnName(from), " to " + ColumnName(to);
      Framed(MOVED_PREFIX, middle, last);
      MOVED_PREFIX + middle + last
    case TaskReordered(_, title, column, _, _, _) =>
      var middle, last := title + "\"", " in " + ColumnName(column);
      Framed(REORDERED_PREFIX, middle, last);
      REORDERED_PREFIX + middle + last
    case TaskUpdated(_, title, changes, _) =>
      var middle, last := title + "\": ", Join(changes, ", ");
      Framed(UPDATED_PREFIX, middle, last);
      assert (UPDATED_PREFIX + middle + last)[1] != UNKNOWN_ACTION[1];
      UPDATED_PREFIX + middle + last
    case TaskDeleted(_, title, _) =>
      Framed(DELETED_PREFIX, title, "\"");
      DELETED_PREFIX + title + "\""
  }

  /** The text tells which of the five kinds of entry it describes. */
  lemma TextDeterminesKind(a: HistoryAction, b: HistoryAction)
    requires ActionText(a) == ActionText(b)
    ensures a.TaskCreated? == b.TaskCreated? && a.TaskMoved? == b.TaskMoved?
    ensures a.TaskReordered? == b.TaskReordered? && a.TaskUpdated? == b.TaskUpdated?
    ensures a.TaskDeleted? == b.TaskDeleted?
  {
    var t := ActionText(a);
    assert t[0] == ActionText(b)[0];
    assert t[0] == (if a.TaskCreated? then 'C' else if a.TaskMoved? then 'M' else if a.TaskReordered? then 'R'
                    else if a.TaskUpdated? then 'U' else 'D');
  }

  /** A creation or deletion text is the title between a fixed prefix and a closing quote. */
  lemma CreatedOrDeletedTextHoldsTitle(a: HistoryAction)
    requires a.TaskCreated? || a.TaskDeleted?
    ensures var t := ActionText(a);
      && |t| == |a.taskTitle| + 15
      && t[..14] == (if a.TaskCreated? then CREATED_PREFIX else DELETED_PREFIX)
      && t[14..|t| - 1] == a.taskTitle
      && t[|t| - 1] == '"'
  {
  }

  /**
   * A move text is `Moved "`, the title, then `" from ` with the panel name
   * of the source column, and ` to ` with that of the target column.
   */
  lemma MovedTextHoldsTitleAndColumns(a: HistoryAction)
    requires a.TaskMoved?
    ensures var t, p := ActionText(a), |MOVED_PREFIX|;
      && |t| == p + |a.taskTitle| + |"\" from " + ColumnName(a.fromColumn) + " to " + ColumnName(a.toColumn)|
      && t[..p] == MOVED_PREFIX
      && t[p..p + |a.taskTitle|] == a.taskTitle
      && t[p + |a.taskTitle|..] == "\" from " + ColumnName(a.fromColumn) + " to " + ColumnName(a.toColumn)
  {
    var rest := "\" from " + ColumnName(a.fromColumn) + " to " + ColumnName(a.toColumn);
    assert ActionText(a) == MOVED_PREFIX + a.taskTitle + rest;
    Slices(MOVED_PREFIX, a.taskTitle, rest);
  }

  /**
   * A reorder text is `Reordered "`, the title, then `" in ` with the panel
   * name of the column; the two indices do not appear.
   */
  lemma ReorderedTextHoldsTitleAndColumn(a: HistoryAction)
    requires a.TaskReordered?
    ensures var t, p := ActionText(a), |REORDERED_PREFIX|;
      && |t| == p + |a.taskTitle| + |"\" in " + ColumnName(a.column)|
      && t[..p] == REORDERED_PREFIX
      && t[p..p + |a.taskTitle|] == a.taskTitle
      && t[p + |a.taskTitle|..] == "\" in " + ColumnName(a.column)
  {
    var rest := "\" in " + ColumnName(a.column);
    assert ActionText(a) == REORDERED_PREFIX + a.taskTitle + rest;
    Slices(REORDERED_PREFIX, a.taskTitle, rest);
  }

  /** The three parts of `p + m + q` can be read back by slicing. */
  lemma Slices(p: string, m: string, q: string)
    ensures var t := p + m + q;
      t[..|p|] == p && t[|p|..|p| + |m|] == m && t[|p| + |m|..] == q
  {
    var t := p + m + q;
    assert t[..|p|] == p;
    assert t[|p|..|p| + |m|] == m;
    assert t[|p| + |m|..] == q;
  }

  /** Two creations (or two deletions) with the same text are of the same title. */
  lemma CreatedTextDeterminesTitle(a: HistoryAction, b: HistoryAction)
    requires (a.TaskCreated? && b.TaskCreated?) || (a.TaskDeleted? && b.TaskDeleted?)
    requires ActionText(a) == ActionText(b)
    ensures a.taskTitle == b.taskTitle
  {
    CreatedOrDeletedTextHoldsTitle(a);
    CreatedOrDeletedTextHoldsTitle(b);
  }

  /** A reorder text does not show the indices but does name the column, which it ends with. */
  lemma ReorderedTextNamesColumn(a: HistoryAction, b: HistoryAction)
    requires a.TaskReordered? && b.TaskReordered?
    ensures a.taskTitle == b.taskTitle && a.column == b.column ==> ActionText(a) == ActionText(b)
    ensures ActionText(a) == ActionText(b) ==> a.column == b.column
  {
    if ActionText(a) == ActionText(b) {
      SameEndingSameColumn(ActionText(a), ActionText(b), " in ", a.column, b.column);
    }
  }

  /** A move text ends with the name of the column it went to. */
  lemma MovedTextNamesTarget(a: HistoryAction, b: HistoryAction)
    requires a.TaskMoved? && b.TaskMoved? && ActionText(a) == ActionText(b)
    ensures a.toColumn == b.toColumn
  {
    SameEndingSameColumn(ActionText(a), ActionText(b), " to ", a.toColumn, b.toColumn);
  }

  /**
   * An update text is the title's sentence head followed by the changes in
   * their stored order: each change at its offset, a comma and a space
   * between neighbours, and the last change at the very end.
   */
  lemma UpdatedTextListsChanges(id: TaskId, title: string, cs: seq<string>, when: Timestamp)
    ensures var t, head := ActionText(TaskUpdated(id, title, cs, when)), UPDATED_PREFIX + (title + "\": ");
      && StartsWith(t, head)
      && ListsInOrder(t, |head|, cs, ", ")
      && (cs != [] ==> EndsWith(t, cs[|cs| - 1]))
      && (cs == [] ==> t == head)
      && (cs != [] ==> |t| == |head| + JoinOffset(cs, ", ", |cs| - 1) + |cs[|cs| - 1]|)
  {
    var head := UPDATED_PREFIX + (title + "\": ");
    assert ActionText(TaskUpdated(id, title, cs, when)) == head + Join(cs, ", ");
    JoinAfterHead(head, cs, ", ");
    if cs != [] {
      JoinLength(cs, ", ");
    }
  }
}
