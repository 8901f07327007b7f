/**
 * The consistency conditions between the task table and the column lists:
 * I1 every listed id is a task, I2 no id is listed in two columns,
 * I3 no column lists an id twice.
 */
module BoardInvariants {
  import opened Seqs
  import opened Types
  import opened TaskUtils

  ghost predicate I1(b: BoardState)
  {
    forall c: ColumnId, x :: x in b.order.Get(c) ==> x in b.tasks
  }

  ghost predicate I2(b: BoardState)
  {
    forall c: ColumnId, d: ColumnId, x :: c != d && x in b.order.Get(c) ==> x !in b.order.Get(d)
  }

  ghost predicate I3(b: BoardState)
  {
    forall c: ColumnId :: NoDup(b.order.Get(c))
  }

  ghost predicate Consistent(b: BoardState)
  {
    I1(b) && I2(b) && I3(b)
  }

  /** The empty board is consistent. */
  lemma EmptyBoardConsistent()
    ensures Consistent(EmptyBoard())
  {
  }
}
