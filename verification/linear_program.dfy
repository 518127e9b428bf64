/** Linear 0/1 programs over the (time step, position) board of the level:
    the variables, constraints and objective that are handed to the
    integer-programming engine, and the engine's model object that
    accumulates them. */
module LinearProgram {

  /** The board variable board[row, col]: "the actor stands on position col
      at time step row". */
  datatype Cell = Cell(row: nat, col: nat)

  /** coef * board[cell] */
  datatype Term = Term(coef: int, cell: Cell)

  datatype Relation = Eq | Le

  /** The linear constraint  Σ lhs  rel  constant + Σ rhs. */
  datatype Constraint = Constraint(lhs: seq<Term>, rel: Relation, constant: int, rhs: seq<Term>)

  /** One summand  weight * board[cell]  of the objective. */
  datatype WeightedCell = WeightedCell(weight: real, cell: Cell)

  /** A candidate solution: the value of every board variable it mentions;
      a variable it does not mention reads as 0. */
  type Assignment = map<Cell, int>

  predicate InGrid(c: Cell, time: nat, length: nat)
  {
    c.row < time && c.col < length
  }

  /** The board variables are boolean. */
  predicate Binary(a: Assignment)
  {
    forall c :: c in a ==> a[c] == 0 || a[c] == 1
  }

  function Value(a: Assignment, c: Cell): int
  {
    if c in a then a[c] else 0
  }

  function Eval(a: Assignment, ts: seq<Term>): int
  {
    if ts == [] then 0 else ts[0].coef * Value(a, ts[0].cell) + Eval(a, ts[1..])
  }

  /** The value of the right-hand side, constant + Σ rhs. */
  function Rhs(a: Assignment, c: Constraint): int
  {
    c.constant + Eval(a, c.rhs)
  }

  predicate Satisfies(a: Assignment, c: Constraint)
  {
    match c.rel
    case Eq => Eval(a, c.lhs) == Rhs(a, c)
    case Le => Eval(a, c.lhs) <= Rhs(a, c)
  }

  predicate SatisfiesAll(a: Assignment, cs: seq<Constraint>)
  {
    forall c :: c in cs ==> Satisfies(a, c)
  }

  /** Every variable the constraint mentions is a cell of the time x length board. */
  predicate MentionsOnlyGrid(c: Constraint, time: nat, length: nat)
  {
    forall t :: t in c.lhs + c.rhs ==> InGrid(t.cell, time, length)
  }

  /** The cells with coefficient 1 each: the sum of their variables. */
  function Unit(cells: seq<Cell>): seq<Term>
  {
    seq(|cells|, k requires 0 <= k < |cells| => Term(1, cells[k]))
  }

  /** Every coefficient multiplied by k. */
  function Scale(k: int, ts: seq<Term>): seq<Term>
  {
    seq(|ts|, n requires 0 <= n < |ts| => Term(k * ts[n].coef, ts[n].cell))
  }

  /** The number of the given cells that are set. */
  function Sum(a: Assignment, cells: seq<Cell>): int
  {
    Eval(a, Unit(cells))
  }

  /** The cells of time step i, positions 0 .. length-1. */
  function RowCells(i: nat, length: nat): seq<Cell>
  {
    seq(length, j requires 0 <= j < length => Cell(i, j))
  }

  /** The cells of position col, time steps 0 .. rows-1. */
  function ColumnCells(col: nat, rows: nat): seq<Cell>
  {
    seq(rows, z requires 0 <= z < rows => Cell(z, col))
  }

  lemma {:induction false} EvalAppend(a: Assignment, xs: seq<Term>, ys: seq<Term>)
    ensures Eval(a, xs + ys) == Eval(a, xs) + Eval(a, ys)
    decreases |xs|
  {
    if xs == [] {
      assert xs + ys == ys;
    } else {
      assert (xs + ys)[1..] == xs[1..] + ys;
      EvalAppend(a, xs[1..], ys);
    }
  }

  lemma {:induction false} EvalScale(a: Assignment, k: int, ts: seq<Term>)
    ensures Eval(a, Scale(k, ts)) == k * Eval(a, ts)
    decreases |ts|
  {
    if ts != [] {
      assert Scale(k, ts)[1..] == Scale(k, ts[1..]);
      EvalScale(a, k, ts[1..]);
      calc {
        Eval(a, Scale(k, ts));
        k * ts[0].coef * Value(a, ts[0].cell) + k * Eval(a, ts[1..]);
        k * (ts[0].coef * Value(a, ts[0].cell) + Eval(a, ts[1..]));
      }
    }
  }

  lemma SumAppend(a: Assignment, xs: seq<Cell>, ys: seq<Cell>)
    ensures Sum(a, xs + ys) == Sum(a, xs) + Sum(a, ys)
  {
    assert Unit(xs + ys) == Unit(xs) + Unit(ys);
    EvalAppend(a, Unit(xs), Unit(ys));
  }

  lemma SumSingleton(a: Assignment, c: Cell)
    ensures Sum(a, [c]) == Value(a, c)
  {
    var ts := Unit([c]);
    assert ts[0] == Term(1, c) && ts[1..] == [];
    assert Eval(a, ts) == 1 * Value(a, c) + Eval(a, ts[1..]);
  }

  /** Over boolean variables, a sum of k cells lies in [0, k]. */
  lemma {:induction false} SumBounds(a: Assignment, cells: seq<Cell>)
    requires Binary(a)
    ensures 0 <= Sum(a, cells) <= |cells|
    decreases |cells|
  {
    if cells != [] {
      assert Unit(cells)[1..] == Unit(cells[1..]);
      SumBounds(a, cells[1..]);
    }
  }

  /** The recorded variables, constraints and objective of one
      integer-programming model (the engine's `model` object). */
  class Model {
    var variables: seq<Cell>
    var constraints: seq<Constraint>
    var objective: seq<WeightedCell>

    constructor ()
      ensures variables == [] && constraints == [] && objective == []
    {
      variables := [];
      constraints := [];
      objective := [];
    }

    /** Declares a variable for each of the given cells. Every variable
        of this program is boolean, so the kind is not recorded; the 0/1
        domain is part of what a solution is (see `Binary`). */
    method Var(cells: seq<Cell>)
      modifies this
      ensures variables == old(variables) + cells
      ensures constraints == old(constraints) && objective == old(objective)
    {
      variables := variables + cells;
    }

    /** Adds constraints, in order, after those already there. */
    method St(cs: seq<Constraint>)
      modifies this
      ensures constraints == old(constraints) + cs
      ensures variables == old(variables) && objective == old(objective)
    {
      constraints := constraints + cs;
    }

    /** Sets the expression to minimise. */
    method Min(obj: seq<WeightedCell>)
      modifies this
      ensures objective == obj
      ensures variables == old(variables) && constraints == old(constraints)
    {
      objective := obj;
    }
  }
}
