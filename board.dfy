/**
 * The board's drop handler: from the drop targets under the cursor and the
 * current column lists it decides whether to move the dragged task, to which
 * column, and at which index.
 */
module BoardDrop {
  import opened Wrappers
  import opened Seqs
  import opened Types
  import opened StoreActions
  import StoreProperties

  /** The edge of a card the cursor is closest to. */
  datatype Edge = Top | Bottom

  /** What a drop target reports: a column its id, a card its task id and closest edge. */
  datatype TargetData = TargetData(columnId: Option<ColumnId>, taskId: Option<TaskId>, closestEdge: Option<Edge>)

  /** The `moveTask` call a drop turns into. */
  datatype MoveRequest = MoveRequest(taskId: TaskId, toColumn: ColumnId, toIndex: Option<int>)

  /** A target whose `taskId` is truthy: present and not the empty string. */
  predicate IsTaskTarget(t: TargetData)
  {
    t.taskId.Some? && t.taskId.value != ""
  }

  predicate NoColumnTarget(ts: seq<TargetData>)
  {
    forall i :: 0 <= i < |ts| ==> ts[i].columnId.None?
  }

  predicate NoTaskTarget(ts: seq<TargetData>)
  {
    forall i :: 0 <= i < |ts| ==> !IsTaskTarget(ts[i])
  }

  /** The column of the first target that names one. */
  function FindColumnTarget(ts: seq<TargetData>): (r: Option<ColumnId>)
    ensures r.None? <==> NoColumnTarget(ts)
    ensures r.Some? ==> exists k :: 0 <= k < |ts| && ts[k].columnId == r && NoColumnTarget(ts[..k])
  {
    if ts == [] then None
    else if ts[0].columnId.Some? then
      assert NoColumnTarget(ts[..0]);
      ts[0].columnId
    else
      var r := FindColumnTarget(ts[1..]);
      if r.Some? then
        var k :| 0 <= k < |ts[1..]| && ts[1..][k].columnId == r && NoColumnTarget(ts[1..][..k]);
        assert ts[..k + 1] == [ts[0]] + ts[1..][..k];
        assert ts[k + 1].columnId == r && NoColumnTarget(ts[..k + 1]);
        r
      else
        r
  }

  /** The first target that is a card. */
  function FindTaskTarget(ts: seq<TargetData>): (r: Option<TargetData>)
    ensures r.None? <==> NoTaskTarget(ts)
    ensures r.Some? ==> IsTaskTarget(r.value) && exists k :: 0 <= k < |ts| && ts[k] == r.value && NoTaskTarget(ts[..k])
  {
    if ts == [] then None
    else if IsTaskTarget(ts[0]) then
      assert NoTaskTarget(ts[..0]);
      Some(ts[0])
    else
      var r := FindTaskTarget(ts[1..]);
      if r.Some? then
        var k :| 0 <= k < |ts[1..]| && ts[1..][k] == r.value && NoTaskTarget(ts[1..][..k]);
        assert ts[..k + 1] == [ts[0]] + ts[1..][..k];
        assert ts[k + 1] == r.value && NoTaskTarget(ts[..k + 1]);
        r
      else
        r
  }

  /** The index a card drop asks for: the card's own position, or the one after it for its bottom edge. */
  function EdgeIndex(i: int, edge: Option<Edge>): int
  {
    if edge == Some(Bottom) then i + 1 else i
  }

  /**
   * handleDrop as written: the target card is looked up in the column's
   * list as it is before the move, with the dragged task still in it.
   */
  function HandleDrop(source: TaskId, ts: seq<TargetData>, o: Order): (r: Option<MoveRequest>)
    ensures NoColumnTarget(ts) ==> r.None?
    ensures r.Some? ==> r.value.taskId == source && Some(r.value.toColumn) == FindColumnTarget(ts)
    ensures r.Some? && r.value.toIndex.Some? ==> 0 <= r.value.toIndex.value <= |o.Get(r.value.toColumn)|
    ensures !NoColumnTarget(ts) && NoTaskTarget(ts) ==>
      r == Some(MoveRequest(source, FindColumnTarget(ts).value, None))
    ensures !NoTaskTarget(ts) ==> r.None? || r.value.toIndex.Some?
  {
    match FindColumnTarget(ts)
    case None => None
    case Some(col) =>
      match FindTaskTarget(ts)
      case None => Some(MoveRequest(source, col, None))
      case Some(t) =>
        var i := IndexOf(o.Get(col), t.taskId.value);
        if i == -1 then None
        else Some(MoveRequest(source, col, Some(EdgeIndex(i, t.closestEdge))))
  }

  /** The store after the drop: the requested move, or nothing. */
  function Dispatch(s: AppState, r: Option<MoveRequest>, now: Timestamp): AppState
  {
    match r
    case None => s
    case Some(m) => MoveTask(s, m.taskId, m.toColumn, m.toIndex, now)
  }

  /**
   * A drop on a card: no move when the card is not listed in the target
   * column, otherwise the card's position, plus one for its bottom edge.
   */
  lemma DropOnCard(source: TaskId, ts: seq<TargetData>, o: Order, col: ColumnId, t: TargetData)
    requires FindColumnTarget(ts) == Some(col) && FindTaskTarget(ts) == Some(t)
    ensures t.taskId.value !in o.Get(col) ==> HandleDrop(source, ts, o).None?
    ensures t.taskId.value in o.Get(col) ==>
      var i := IndexOf(o.Get(col), t.taskId.value);
      && 0 <= i && o.Get(col)[i] == t.taskId.value
      && HandleDrop(source, ts, o) == Some(MoveRequest(source, col, Some(if t.closestEdge == Some(Bottom) then i + 1 else i)))
  {
  }

  /** A drop on the empty part of a column sends the task to the end of that column. */
  lemma DropOnColumnAppends(s: AppState, source: TaskId, ts: seq<TargetData>, now: Timestamp)
    requires source in s.board.tasks && CurrentColumn(s.board.order, source).Some?
    requires !NoColumnTarget(ts) && NoTaskTarget(ts)
    ensures var col := FindColumnTarget(ts).value;
      Dispatch(s, HandleDrop(source, ts, s.board.order), now).board.order.Get(col)
        == Without(s.board.order.Get(col), source) + [source]
  {
    var col := FindColumnTarget(ts).value;
    StoreProperties.MoveTaskPlacement(s, source, col, None, now);
  }

  /**
   * The example that shows the off-by-one: with To-do [a, b, c], dropping a
   * on the bottom edge of b asks for index 2, and a ends up after c instead
   * of between b and c.
   */
  lemma DownwardDropOvershoots(s: AppState, a: TaskId, b: TaskId, c: TaskId, now: Timestamp)
    requires a != b && b != c && a != c && b != ""
    requires s.board.order == Order([a, b, c], [], []) && a in s.board.tasks
    ensures var ts := [TargetData(None, Some(b), Some(Bottom)), TargetData(Some(Todo), None, None)];
      && HandleDrop(a, ts, s.board.order) == Some(MoveRequest(a, Todo, Some(2)))
      && Dispatch(s, HandleDrop(a, ts, s.board.order), now).board.order.todo == [b, c, a]
  {
    var ts := [TargetData(None, Some(b), Some(Bottom)), TargetData(Some(Todo), None, None)];
    DownwardDropRequest(a, b, c, ts, s.board.order);
    DownwardDropMove(s, a, b, c, now);
  }

  /** The drop of a on b's bottom edge in To-do [a, b, c] asks for index 2. */
  lemma DownwardDropRequest(a: TaskId, b: TaskId, c: TaskId, ts: seq<TargetData>, o: Order)
    requires a != b && b != c && a != c && b != ""
    requires o == Order([a, b, c], [], [])
    requires ts == [TargetData(None, Some(b), Some(Bottom)), TargetData(Some(Todo), None, None)]
    ensures HandleDrop(a, ts, o) == Some(MoveRequest(a, Todo, Some(2)))
  {
    assert ts[1..] == [ts[1]];
    assert FindColumnTarget(ts) == Some(Todo);
    assert FindTaskTarget(ts) == Some(ts[0]);
    FirstOfThree(a, b, c);
  }

  /** Moving a to index 2 of To-do [a, b, c] puts it after c. */
  lemma DownwardDropMove(s: AppState, a: TaskId, b: TaskId, c: TaskId, now: Timestamp)
    requires a != b && b != c && a != c
    requires s.board.order.todo == [a, b, c] && a in s.board.tasks
    ensures MoveTask(s, a, Todo, Some(2), now).board.order.todo == [b, c, a]
  {
    FirstOfThree(a, b, c);
    assert s.board.order.Get(Todo) == [a, b, c];
    StoreProperties.MoveTaskPlacement(s, a, Todo, Some(2), now);
    assert MoveTask(s, a, Todo, Some(2), now).board.order.Get(Todo) == [b, c] + [a];
  }

  /** The list facts the downward-drop scenario rests on. */
  lemma FirstOfThree(a: TaskId, b: TaskId, c: TaskId)
    requires a != b && b != c && a != c
    ensures Without([a, b, c], a) == [b, c]
    ensures IndexOf([a, b, c], b) == 1
  {
    assert [a, b, c][1..] == [b, c];
    assert [b, c][1..] == [c];
    assert [c][1..] == [];
    assert Without([c], a) == [c];
    assert Without([b, c], a) == [b, c];
  }

  /**
   * handleDrop as intended: the target card's position is taken in the
   * column's list once the dragged task is out of it, which is the list
   * `moveTask` splices into.
   */
  function HandleDropFixed(source: TaskId, ts: seq<TargetData>, o: Order): (r: Option<MoveRequest>)
    ensures NoColumnTarget(ts) ==> r.None?
    ensures r.Some? ==> r.value.taskId == source && Some(r.value.toColumn) == FindColumnTarget(ts)
    ensures r.Some? && r.value.toIndex.Some? ==>
      0 <= r.value.toIndex.value <= |Without(o.Get(r.value.toColumn), source)|
    ensures !NoColumnTarget(ts) && NoTaskTarget(ts) ==>
      r == Some(MoveRequest(source, FindColumnTarget(ts).value, None))
    ensures !NoTaskTarget(ts) ==> r.None? || r.value.toIndex.Some?
  {
    match FindColumnTarget(ts)
    case None => None
    case Some(col) =>
      match FindTaskTarget(ts)
      case None => Some(MoveRequest(source, col, None))
      case Some(t) =>
        var i := IndexOf(Without(o.Get(col), source), t.taskId.value);
        if i == -1 then None
        else Some(MoveRequest(source, col, Some(EdgeIndex(i, t.closestEdge))))
  }

  /** When the task is dragged in from another column the two computations agree. */
  lemma FixedAgreesAcrossColumns(source: TaskId, ts: seq<TargetData>, o: Order)
    requires FindColumnTarget(ts).Some? && source !in o.Get(FindColumnTarget(ts).value)
    ensures HandleDropFixed(source, ts, o) == HandleDrop(source, ts, o)
  {
    WithoutNotIn(o.Get(FindColumnTarget(ts).value), source);
  }

  /**
   * With the corrected index, a task dropped on a listed card (never itself:
   * a card does not accept its own drag) ends up right above the card, or
   * right below it for the bottom edge, in every column and direction.
   */
  lemma FixedDropLandsNextToTarget(s: AppState, source: TaskId, ts: seq<TargetData>, col: ColumnId, t: TargetData, now: Timestamp)
    requires source in s.board.tasks && CurrentColumn(s.board.order, source).Some?
    requires FindColumnTarget(ts) == Some(col) && FindTaskTarget(ts) == Some(t)
    requires t.taskId.value != source && t.taskId.value in s.board.order.Get(col)
    ensures HandleDropFixed(source, ts, s.board.order).Some?
    ensures var l := Dispatch(s, HandleDropFixed(source, ts, s.board.order), now).board.order.Get(col);
      exists p :: 0 <= p && p + 1 < |l| &&
        if t.closestEdge == Some(Bottom) then l[p] == t.taskId.value && l[p + 1] == source
        else l[p] == source && l[p + 1] == t.taskId.value
  {
    var target := t.taskId.value;
    var rest := Without(s.board.order.Get(col), source);
    assert target in rest;
    var k := EdgeIndex(IndexOf(rest, target), t.closestEdge);
    InsertNextTo(rest, target, source, t.closestEdge);
    var r := HandleDropFixed(source, ts, s.board.order);
    assert r == Some(MoveRequest(source, col, Some(k)));
    var after := MoveTask(s, source, col, Some(k), now);
    assert Dispatch(s, r, now) == after;
    StoreProperties.MoveTaskPlacement(s, source, col, Some(k), now);
    assert SpliceStart(k, |rest|) == k;
    assert after.board.order.Get(col) == InsertAt(rest, k, source);
  }

  /** Splicing `v` in at a card's edge index puts it right above the card, or right below for the bottom edge. */
  lemma InsertNextTo(rest: seq<TaskId>, target: TaskId, v: TaskId, edge: Option<Edge>)
    requires target in rest
    ensures var k := EdgeIndex(IndexOf(rest, target), edge);
      && k <= |rest|
      && var l := InsertAt(rest, k, v);
        exists p :: 0 <= p && p + 1 < |l| &&
          if edge == Some(Bottom) then l[p] == target && l[p + 1] == v
          else l[p] == v && l[p + 1] == target
  {
    var i := IndexOf(rest, target);
    var k := EdgeIndex(i, edge);
    var l := InsertAt(rest, k, v);
    if edge == Some(Bottom) {
      assert l[i] == target && l[i + 1] == v;
    } else {
      assert l[i] == v && l[i + 1] == target;
    }
  }
}
