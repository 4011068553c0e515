/**
 Time evolution of the automaton. Every cell of a row is replaced, all at
 once, by the table's value for (the cell, its left neighbour). The left
 neighbour of cell i is the element at Python index i - 1, so cell 0 reads the
 last cell: the row is a ring. The spacetime field for `time` steps is the list
 of the rows after 0, 1, ..., time steps.
 */
module Evolution {
  import opened RuleTable

  /** A configuration: a row of cells, each in {0, 1, 2}. */
  ghost predicate ValidRow(row: seq<int>) {
    forall i :: 0 <= i < |row| ==> IsCell(row[i])
  }

  /** Python's `row[k]`: a negative index counts from the end of the list. */
  function PyIndex(row: seq<int>, k: int): int
    requires -|row| <= k < |row|
  {
    if k < 0 then row[|row| + k] else row[k]
  }

  /** The left neighbour of cell i, `current[i - 1]` in the source. */
  function Left(row: seq<int>, i: int): int
    requires 0 <= i < |row|
  {
    PyIndex(row, i - 1)
  }

  /** The boundary is periodic: the left neighbour of cell i is cell
      (i - 1) mod L, which for cell 0 is the last cell, and for a row of one
      cell is the cell itself. */
  lemma LeftIsPeriodic(row: seq<int>, i: int)
    requires 0 <= i < |row|
    ensures Left(row, i) == row[(i - 1) % |row|]
    ensures i == 0 ==> Left(row, i) == row[|row| - 1]
    ensures i > 0 ==> Left(row, i) == row[i - 1]
    ensures |row| == 1 ==> Left(row, i) == row[i]
  {
    if i == 0 {
      assert (i - 1) % |row| == |row| - 1;
    } else {
      assert (i - 1) % |row| == i - 1;
    }
  }

  lemma LeftIsPeriodicEverywhere(row: seq<int>)
    ensures forall i :: 0 <= i < |row| ==> Left(row, i) == row[(i - 1) % |row|]
  {
    forall i | 0 <= i < |row| {
      LeftIsPeriodic(row, i);
    }
  }

  /** One synchronous update of every cell of `row` by the table. */
  function Step(t: Table, row: seq<int>): (next: seq<int>)
    requires Complete(t) && ValidRow(row)
    ensures |next| == |row| && ValidRow(next)
    ensures forall i :: 0 <= i < |row| ==> next[i] == t[(row[i], row[(i - 1) % |row|])]
  {
    LeftIsPeriodicEverywhere(row);
    seq(|row|, i requires 0 <= i < |row| => t[(row[i], Left(row, i))])
  }

  /** The row after n steps. */
  function Iterate(t: Table, row: seq<int>, n: nat): (r: seq<int>)
    requires Complete(t) && ValidRow(row)
    ensures |r| == |row| && ValidRow(r)
    decreases n
  {
    if n == 0 then row else Iterate(t, Step(t, row), n - 1)
  }

  /** Stepping after n steps is the (n + 1)-st step. */
  lemma {:induction false} IterateSucc(t: Table, row: seq<int>, n: nat)
    requires Complete(t) && ValidRow(row)
    ensures Iterate(t, row, n + 1) == Step(t, Iterate(t, row, n))
    decreases n
  {
    if n > 0 {
      IterateSucc(t, Step(t, row), n - 1);
    }
  }

  /** The spacetime field: the rows after 0, 1, ..., time steps. */
  function SpacetimeField(t: Table, init: seq<int>, time: nat): (field: seq<seq<int>>)
    requires Complete(t) && ValidRow(init)
  {
    seq(time + 1, k requires 0 <= k <= time => Iterate(t, init, k))
  }

  /** One more step appends one more row. */
  lemma SpacetimeFieldSucc(t: Table, init: seq<int>, time: nat)
    requires Complete(t) && ValidRow(init)
    ensures SpacetimeField(t, init, time + 1) == SpacetimeField(t, init, time) + [Iterate(t, init, time + 1)]
  {
  }

  /** The field has time + 1 rows, starts with the initial configuration, and
      every row is a configuration of the initial length. */
  lemma SpacetimeFieldShape(t: Table, init: seq<int>, time: nat)
    requires Complete(t) && ValidRow(init)
    ensures |SpacetimeField(t, init, time)| == time + 1
    ensures SpacetimeField(t, init, time)[0] == init
    ensures forall k :: 0 <= k <= time ==>
      |SpacetimeField(t, init, time)[k]| == |init| && ValidRow(SpacetimeField(t, init, time)[k])
  {
  }

  /** Zero steps give exactly the initial configuration. */
  lemma SpacetimeFieldZero(t: Table, init: seq<int>)
    requires Complete(t) && ValidRow(init)
    ensures SpacetimeField(t, init, 0) == [init]
  {
  }

  /** Each row after the first is the table applied, cell by cell, to the
      previous row with a periodic left neighbour. */
  lemma StepRelation(t: Table, init: seq<int>, time: nat, k: nat, i: nat)
    requires Complete(t) && ValidRow(init)
    requires k < time && i < |init|
    ensures SpacetimeField(t, init, time)[k + 1][i] ==
      t[(SpacetimeField(t, init, time)[k][i], SpacetimeField(t, init, time)[k][(i - 1) % |init|])]
  {
    IterateSucc(t, init, k);
  }

  /** Every value of rows 1..time is a value of the table. */
  lemma ValuesFromTable(t: Table, init: seq<int>, time: nat, k: nat, i: nat)
    requires Complete(t) && ValidRow(init)
    requires 0 < k <= time && i < |init|
    ensures SpacetimeField(t, init, time)[k][i] in t.Values
  {
    StepRelation(t, init, time, k - 1, i);
  }

  /** A longer run extends a shorter one: field(time) is a prefix of
      field(time'). */
  lemma SpacetimeFieldPrefix(t: Table, init: seq<int>, time: nat, time': nat)
    requires Complete(t) && ValidRow(init)
    requires time <= time'
    ensures SpacetimeField(t, init, time) == SpacetimeField(t, init, time')[..time + 1]
  {
  }
}
