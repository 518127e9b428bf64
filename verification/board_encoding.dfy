/** The rules of the game as linear constraints over the board: the start,
    reaching the end exactly once, one actor per step, and the jump
    windows. */
module BoardEncoding {
  import opened LinearProgram

  /** The six cells of time steps i, i+1 and positions j .. j+2, row by row. */
  function WindowCells(i: nat, j: nat): seq<Cell>
  {
    [Cell(i, j), Cell(i, j + 1), Cell(i, j + 2),
     Cell(i + 1, j), Cell(i + 1, j + 1), Cell(i + 1, j + 2)]
  }

  /** board[0, 0] == 1: the actor starts on position 0. */
  function Start(): Constraint
  {
    Constraint(Unit([Cell(0, 0)]), Eq, 1, [])
  }

  /** Σ_i board[i, length-1] == 1: the last position is occupied at exactly
      one time step. */
  function EndOnce(length: nat, time: nat): Constraint
    requires length >= 1
  {
    Constraint(Unit(ColumnCells(length - 1, time)), Eq, 1, [])
  }

  /** Σ_j board[i, j] <= 1: at most one position is occupied at step i. */
  function RowLimit(i: nat, length: nat): Constraint
  {
    Constraint(Unit(RowCells(i, length)), Le, 1, [])
  }

  function RowConstraints(length: nat, time: nat): seq<Constraint>
  {
    seq(time, i requires 0 <= i < time => RowLimit(i, length))
  }

  /** The jump window at (i, j):
      Σ window cells == 2 * (1 - Σ_{z < i} board[z, length-1]),
      kept as the constant 2 plus the terms -2 * board[z, length-1]. */
  function Window(i: nat, j: nat, length: nat): Constraint
    requires length >= 1
  {
    Constraint(Unit(WindowCells(i, j)), Eq, 2, Scale(-2, Unit(ColumnCells(length - 1, i))))
  }

  /** The number of window starts j with j + 2 < length. */
  function WindowWidth(length: nat): nat
  {
    if length >= 2 then length - 2 else 0
  }

  /** The windows of time step i, for every start j. */
  function WindowRow(i: nat, length: nat): seq<Constraint>
    requires length >= 1
  {
    seq(WindowWidth(length), j requires 0 <= j < WindowWidth(length) => Window(i, j, length))
  }

  /** The windows of time steps 0 .. n-1, step by step. */
  function WindowsUpTo(length: nat, n: nat): seq<Constraint>
    requires length >= 1
  {
    if n == 0 then [] else WindowsUpTo(length, n - 1) + WindowRow(n - 1, length)
  }

  /** One window per step i < time-1 and start j < length-2. */
  function WindowConstraints(length: nat, time: nat): seq<Constraint>
    requires length >= 1 && time >= 1
  {
    WindowsUpTo(length, time - 1)
  }

  /** Every rule constraint, in the order they are added to the model. */
  function BoardConstraints(length: nat, time: nat): seq<Constraint>
    requires length >= 1 && time >= 1
  {
    [Start(), EndOnce(length, time)] + RowConstraints(length, time) + WindowConstraints(length, time)
  }

  /** c is the window of an in-range step i < n and start j. */
  predicate IsWindow(c: Constraint, length: nat, n: nat)
    requires length >= 1
  {
    c.lhs != [] &&
    var cell := c.lhs[0].cell;
    cell.row < n && cell.col < WindowWidth(length) && c == Window(cell.row, cell.col, length)
  }

  /** What the rule constraints demand of an assignment, stated directly. */
  predicate RulesRespected(a: Assignment, length: nat, time: nat)
    requires length >= 1
  {
    Value(a, Cell(0, 0)) == 1 &&
    Sum(a, ColumnCells(length - 1, time)) == 1 &&
    (forall i: nat :: i < time ==> Sum(a, RowCells(i, length)) <= 1) &&
    (forall i: nat, j: nat :: i + 1 < time && j < WindowWidth(length) ==>
       Sum(a, WindowCells(i, j)) == 2 * (1 - Sum(a, ColumnCells(length - 1, i))))
  }

  /** addBoardConstraints: adds the start, the end, the one-actor rows and
      the jump windows to the model, in that order. */
  method AddBoardConstraints(model: Model, length: nat, time: nat)
    requires length >= 1 && time >= 1
    modifies model
    ensures model.constraints == old(model.constraints) + BoardConstraints(length, time)
    ensures model.variables == old(model.variables) && model.objective == old(model.objective)
  {
    model.St([Start()]);
    model.St([EndOnce(length, time)]);
    model.St(RowConstraints(length, time));
    model.St(WindowConstraints(length, time));
  }

  // ---------------------------------------------------------------------
  // The shape of the window family

  lemma WindowHead(i: nat, j: nat, length: nat)
    requires length >= 1
    ensures Window(i, j, length).lhs != [] && Window(i, j, length).lhs[0].cell == Cell(i, j)
  {
  }

  lemma {:induction false} WindowsUpToCount(length: nat, n: nat)
    requires length >= 1
    ensures |WindowsUpTo(length, n)| == n * WindowWidth(length)
  {
    if n > 0 {
      WindowsUpToCount(length, n - 1);
      assert |WindowsUpTo(length, n)| == (n - 1) * WindowWidth(length) + WindowWidth(length);
    }
  }

  lemma {:induction false} WindowsUpToSound(length: nat, n: nat)
    requires length >= 1
    ensures forall c :: c in WindowsUpTo(length, n) ==> IsWindow(c, length, n)
  {
    if n > 0 {
      WindowsUpToSound(length, n - 1);
      var row := WindowRow(n - 1, length);
      forall j: nat | j < WindowWidth(length)
        ensures IsWindow(row[j], length, n)
      {
        WindowHead(n - 1, j, length);
      }
    }
  }

  lemma {:induction false} WindowsUpToComplete(length: nat, n: nat)
    requires length >= 1
    ensures forall i: nat, j: nat :: i < n && j < WindowWidth(length) ==> Window(i, j, length) in WindowsUpTo(length, n)
  {
    if n > 0 {
      WindowsUpToComplete(length, n - 1);
      var row := WindowRow(n - 1, length);
      forall i: nat, j: nat | i < n && j < WindowWidth(length)
        ensures Window(i, j, length) in WindowsUpTo(length, n)
      {
        if i == n - 1 {
          assert row[j] == Window(i, j, length);
        } else {
          assert Window(i, j, length) in WindowsUpTo(length, n - 1);
        }
      }
    }
  }

  lemma {:induction false} WindowsUpToDistinct(length: nat, n: nat)
    requires length >= 1
    ensures forall p, q :: 0 <= p < q < |WindowsUpTo(length, n)| ==> WindowsUpTo(length, n)[p] != WindowsUpTo(length, n)[q]
  {
    if n > 0 {
      WindowsUpToDistinct(length, n - 1);
      WindowsUpToSound(length, n - 1);
      var prev, row := WindowsUpTo(length, n - 1), WindowRow(n - 1, length);
      var all := prev + row;
      forall p, q | 0 <= p < q < |all|
        ensures all[p] != all[q]
      {
        if q >= |prev| {
          WindowHead(n - 1, q - |prev|, length);
          if p >= |prev| {
            WindowHead(n - 1, p - |prev|, length);
          } else {
            assert prev[p] in prev;
          }
        }
      }
    }
  }

  /** There is exactly one window per step i < time-1 and start
      j < length-2, (time-1) * (length-2) in all, and none at all when the
      level has two positions. */
  lemma WindowConstraintsShape(length: nat, time: nat)
    requires length >= 1 && time >= 1
    ensures |WindowConstraints(length, time)| == (time - 1) * WindowWidth(length)
    ensures length == 2 ==> WindowConstraints(length, time) == []
    ensures forall c :: c in WindowConstraints(length, time) ==> IsWindow(c, length, time - 1)
    ensures forall i: nat, j: nat :: i < time - 1 && j < WindowWidth(length) ==>
              Window(i, j, length) in WindowConstraints(length, time)
    ensures forall p, q :: 0 <= p < q < |WindowConstraints(length, time)| ==>
              WindowConstraints(length, time)[p] != WindowConstraints(length, time)[q]
  {
    WindowsUpToCount(length, time - 1);
    WindowsUpToSound(length, time - 1);
    WindowsUpToComplete(length, time - 1);
    WindowsUpToDistinct(length, time - 1);
  }

  /** A window sums exactly the six cells of steps i, i+1 and positions
      j .. j+2, each once with coefficient 1; its right-hand side reads
      only the last position at steps before i. */
  lemma WindowCellsExact(i: nat, j: nat, length: nat)
    requires length >= 1
    ensures |Window(i, j, length).lhs| == 6
    ensures forall t :: t in Window(i, j, length).lhs ==> t.coef == 1
    ensures forall c: Cell :: c in WindowCells(i, j) <==> i <= c.row < i + 2 && j <= c.col < j + 3
    ensures forall p, q :: 0 <= p < q < 6 ==> WindowCells(i, j)[p] != WindowCells(i, j)[q]
    ensures forall t :: t in Window(i, j, length).rhs ==> t.coef == -2 && t.cell.col == length - 1 && t.cell.row < i
  {
    var w := WindowCells(i, j);
    forall c: Cell | i <= c.row < i + 2 && j <= c.col < j + 3
      ensures c in w
    {
      assert c == w[3 * (c.row - i) + (c.col - j)];
    }
  }

  // ---------------------------------------------------------------------
  // Every referenced cell is a board variable

  lemma WindowInGrid(i: nat, j: nat, length: nat, time: nat)
    requires length >= 1 && i + 1 < time && j < WindowWidth(length)
    ensures MentionsOnlyGrid(Window(i, j, length), time, length)
  {
    WindowCellsExact(i, j, length);
    var c := Window(i, j, length);
    forall t | t in c.lhs + c.rhs
      ensures InGrid(t.cell, time, length)
    {
      if t in c.lhs {
        var k :| 0 <= k < 6 && c.lhs[k] == t;
        assert t.cell == WindowCells(i, j)[k];
      }
    }
  }

  lemma UnitInGrid(cells: seq<Cell>, time: nat, length: nat)
    requires forall k :: 0 <= k < |cells| ==> InGrid(cells[k], time, length)
    ensures MentionsOnlyGrid(Constraint(Unit(cells), Eq, 0, []), time, length)
  {
    forall t | t in Unit(cells) + []
      ensures InGrid(t.cell, time, length)
    {
      var k :| 0 <= k < |cells| && Unit(cells)[k] == t;
    }
  }

  lemma StartEndInGrid(length: nat, time: nat)
    requires length >= 1 && time >= 1
    ensures MentionsOnlyGrid(Start(), time, length)
    ensures MentionsOnlyGrid(EndOnce(length, time), time, length)
  {
    UnitInGrid([Cell(0, 0)], time, length);
    UnitInGrid(ColumnCells(length - 1, time), time, length);
  }

  lemma RowInGrid(i: nat, length: nat, time: nat)
    requires i < time
    ensures MentionsOnlyGrid(RowLimit(i, length), time, length)
  {
    UnitInGrid(RowCells(i, length), time, length);
  }

  /** Every rule constraint mentions only cells of the time x length board. */
  lemma BoardConstraintsInGrid(length: nat, time: nat)
    requires length >= 1 && time >= 1
    ensures forall c :: c in BoardConstraints(length, time) ==> MentionsOnlyGrid(c, time, length)
  {
    WindowConstraintsShape(length, time);
    StartEndInGrid(length, time);
    var rows := RowConstraints(length, time);
    forall c | c in BoardConstraints(length, time)
      ensures MentionsOnlyGrid(c, time, length)
    {
      if c in rows {
        var i :| 0 <= i < time && rows[i] == c;
        RowInGrid(i, length, time);
      } else if c in WindowConstraints(length, time) {
        WindowInGrid(c.lhs[0].cell.row, c.lhs[0].cell.col, length, time);
      }
    }
  }

  // ---------------------------------------------------------------------
  // What the constraints mean

  lemma WindowMeaning(a: Assignment, i: nat, j: nat, length: nat)
    requires length >= 1
    ensures Satisfies(a, Window(i, j, length)) <==>
            Sum(a, WindowCells(i, j)) == 2 * (1 - Sum(a, ColumnCells(length - 1, i)))
  {
    EvalScale(a, -2, Unit(ColumnCells(length - 1, i)));
  }

  /** An assignment meets every rule constraint exactly when the actor
      starts on position 0, the last position is occupied at exactly one
      step, no step has two occupied positions, and every window sums to
      twice (1 minus the number of earlier visits of the last position). */
  lemma BoardConstraintsMeaning(a: Assignment, length: nat, time: nat)
    requires length >= 1 && time >= 1
    ensures SatisfiesAll(a, BoardConstraints(length, time)) <==> RulesRespected(a, length, time)
  {
    var cs := BoardConstraints(length, time);
    var rows, windows := RowConstraints(length, time), WindowConstraints(length, time);
    WindowConstraintsShape(length, time);
    SumSingleton(a, Cell(0, 0));
    if SatisfiesAll(a, cs) {
      assert Satisfies(a, cs[0]) && Satisfies(a, cs[1]);
      forall i: nat | i < time
        ensures Sum(a, RowCells(i, length)) <= 1
      {
        assert rows[i] in cs;
      }
      forall i: nat, j: nat | i + 1 < time && j < WindowWidth(length)
        ensures Sum(a, WindowCells(i, j)) == 2 * (1 - Sum(a, ColumnCells(length - 1, i)))
      {
        assert Window(i, j, length) in cs;
        WindowMeaning(a, i, j, length);
      }
    }
    if RulesRespected(a, length, time) {
      forall c | c in cs
        ensures Satisfies(a, c)
      {
        if c in rows {
          var i :| 0 <= i < time && rows[i] == c;
        } else if c in windows {
          WindowMeaning(a, c.lhs[0].cell.row, c.lhs[0].cell.col, length);
        }
      }
    }
  }

  // ---------------------------------------------------------------------
  // The window right-hand side along a solution

  lemma ColumnStep(a: Assignment, col: nat, n: nat)
    ensures Sum(a, ColumnCells(col, n + 1)) == Sum(a, ColumnCells(col, n)) + Value(a, Cell(n, col))
  {
    assert ColumnCells(col, n + 1) == ColumnCells(col, n) + [Cell(n, col)];
    SumAppend(a, ColumnCells(col, n), [Cell(n, col)]);
    SumSingleton(a, Cell(n, col));
  }

  /** Over boolean variables, the visits of a position up to a step never
      decrease as the step grows. */
  lemma {:induction false} ColumnMonotone(a: Assignment, col: nat, m: nat, n: nat)
    requires Binary(a) && m <= n
    ensures Sum(a, ColumnCells(col, m)) <= Sum(a, ColumnCells(col, n))
    decreases n - m
  {
    if m < n {
      ColumnMonotone(a, col, m, n - 1);
      ColumnStep(a, col, n - 1);
      SumBounds(a, [Cell(n - 1, col)]);
      SumSingleton(a, Cell(n - 1, col));
    }
  }

  /** If a boolean column sums to 1 over time steps, there is exactly one
      step e at which it is 1, and its prefix sums are 0 up to e and 1
      after. */
  lemma {:induction false} Arrival(a: Assignment, col: nat, time: nat) returns (e: nat)
    requires Binary(a) && Sum(a, ColumnCells(col, time)) == 1
    ensures e < time && Value(a, Cell(e, col)) == 1
    ensures forall z: nat :: z < time && z != e ==> Value(a, Cell(z, col)) == 0
    ensures forall i: nat :: i <= time ==> Sum(a, ColumnCells(col, i)) == if i <= e then 0 else 1
  {
    SumBounds(a, ColumnCells(col, time));
    ColumnStep(a, col, time - 1);
    SumBounds(a, [Cell(time - 1, col)]);
    SumSingleton(a, Cell(time - 1, col));
    if Value(a, Cell(time - 1, col)) == 1 {
      e := time - 1;
      forall i: nat | i <= time
        ensures Sum(a, ColumnCells(col, i)) == if i <= e then 0 else 1
      {
        if i <= e {
          ColumnMonotone(a, col, i, e);
          SumBounds(a, ColumnCells(col, i));
        }
      }
      forall z: nat | z < time && z != e
        ensures Value(a, Cell(z, col)) == 0
      {
        ColumnStep(a, col, z);
        ColumnMonotone(a, col, z + 1, e);
        SumBounds(a, ColumnCells(col, z));
        SumBounds(a, [Cell(z, col)]);
        SumSingleton(a, Cell(z, col));
      }
    } else {
      e := Arrival(a, col, time - 1);
    }
  }

  /** The end constraint alone fixes the window right-hand sides: along
      any boolean assignment that occupies the last position at exactly
      one step e, 2 * (1 - Σ_{z<i} board[z, length-1]) is 2 for steps i up
      to and including e and 0 after it. At step 0 it is always 2. */
  lemma RhsSchedule(a: Assignment, length: nat, time: nat) returns (e: nat)
    requires Binary(a) && length >= 1
    requires Satisfies(a, EndOnce(length, time))
    ensures e < time && Value(a, Cell(e, length - 1)) == 1
    ensures forall c: Cell :: c.col == length - 1 && c.row < time && c.row != e ==> Value(a, c) == 0
    ensures forall i: nat :: i <= time ==>
              Rhs(a, Window(i, 0, length)) == if i <= e then 2 else 0
  {
    e := Arrival(a, length - 1, time);
    forall i: nat | i <= time
      ensures Rhs(a, Window(i, 0, length)) == if i <= e then 2 else 0
    {
      EvalScale(a, -2, Unit(ColumnCells(length - 1, i)));
    }
  }

  /** Along any boolean assignment that meets the rules, the windows up to
      the arrival step e sum to 2 and the later ones to 0. */
  lemma WindowSchedule(a: Assignment, length: nat, time: nat) returns (e: nat)
    requires Binary(a) && length >= 1 && time >= 1
    requires SatisfiesAll(a, BoardConstraints(length, time))
    ensures e < time && Value(a, Cell(e, length - 1)) == 1
    ensures forall c: Cell :: c.col == length - 1 && c.row < time && c.row != e ==> Value(a, c) == 0
    ensures forall i: nat, j: nat :: i + 1 < time && j < WindowWidth(length) ==>
              Sum(a, WindowCells(i, j)) == if i <= e then 2 else 0
  {
    BoardConstraintsMeaning(a, length, time);
    e := Arrival(a, length - 1, time);
  }

  /** Σ board[i, 0 .. 3] over a level of at least four positions is at most
      the whole row. */
  lemma RowPrefix(a: Assignment, i: nat, length: nat)
    requires Binary(a) && length >= 4
    ensures Value(a, Cell(i, 0)) + Value(a, Cell(i, 1)) + Value(a, Cell(i, 2)) + Value(a, Cell(i, 3))
            <= Sum(a, RowCells(i, length))
  {
    var row := RowCells(i, length);
    assert row == [Cell(i, 0)] + [Cell(i, 1)] + [Cell(i, 2)] + [Cell(i, 3)] + row[4..];
    SumAppend(a, [Cell(i, 0)] + [Cell(i, 1)] + [Cell(i, 2)] + [Cell(i, 3)], row[4..]);
    SumAppend(a, [Cell(i, 0)] + [Cell(i, 1)] + [Cell(i, 2)], [Cell(i, 3)]);
    SumAppend(a, [Cell(i, 0)] + [Cell(i, 1)], [Cell(i, 2)]);
    SumAppend(a, [Cell(i, 0)], [Cell(i, 1)]);
    SumSingleton(a, Cell(i, 0));
    SumSingleton(a, Cell(i, 1));
    SumSingleton(a, Cell(i, 2));
    SumSingleton(a, Cell(i, 3));
    SumBounds(a, row[4..]);
  }

  lemma WindowSum(a: Assignment, i: nat, j: nat)
    ensures Sum(a, WindowCells(i, j)) ==
            Value(a, Cell(i, j)) + Value(a, Cell(i, j + 1)) + Value(a, Cell(i, j + 2)) +
            Value(a, Cell(i + 1, j)) + Value(a, Cell(i + 1, j + 1)) + Value(a, Cell(i + 1, j + 2))
  {
    var w := WindowCells(i, j);
    assert w == [w[0]] + [w[1]] + [w[2]] + [w[3]] + [w[4]] + [w[5]];
    SumAppend(a, [w[0]] + [w[1]] + [w[2]] + [w[3]] + [w[4]], [w[5]]);
    SumAppend(a, [w[0]] + [w[1]] + [w[2]] + [w[3]], [w[4]]);
    SumAppend(a, [w[0]] + [w[1]] + [w[2]], [w[3]]);
    SumAppend(a, [w[0]] + [w[1]], [w[2]]);
    SumAppend(a, [w[0]], [w[1]]);
    SumSingleton(a, w[0]);
    SumSingleton(a, w[1]);
    SumSingleton(a, w[2]);
    SumSingleton(a, w[3]);
    SumSingleton(a, w[4]);
    SumSingleton(a, w[5]);
  }

  /** As written, the rules admit no boolean assignment once the level has
      four or more positions: the step-0 window at start 1 must sum to 2,
      but position 0 holds the step-0 actor, so steps 0 and 1 can put at
      most one mark in positions 1 .. 3. */
  lemma LongLevelsInfeasible(a: Assignment, length: nat, time: nat)
    requires Binary(a) && length >= 4 && time >= 2
    ensures !SatisfiesAll(a, BoardConstraints(length, time))
  {
    if SatisfiesAll(a, BoardConstraints(length, time)) {
      BoardConstraintsMeaning(a, length, time);
      RowPrefix(a, 0, length);
      RowPrefix(a, 1, length);
      WindowSum(a, 0, 1);
      assert false;
    }
  }

  lemma RowOfThree(a: Assignment, i: nat)
    ensures Sum(a, RowCells(i, 3)) == Value(a, Cell(i, 0)) + Value(a, Cell(i, 1)) + Value(a, Cell(i, 2))
  {
    assert RowCells(i, 3) == [Cell(i, 0)] + [Cell(i, 1)] + [Cell(i, 2)];
    SumAppend(a, [Cell(i, 0)] + [Cell(i, 1)], [Cell(i, 2)]);
    SumAppend(a, [Cell(i, 0)], [Cell(i, 1)]);
    SumSingleton(a, Cell(i, 0));
    SumSingleton(a, Cell(i, 1));
    SumSingleton(a, Cell(i, 2));
  }

  /** On a level of three positions the only window spans the whole row,
      so a step before arrival forces the next step to be occupied while
      a step after arrival forces it empty: the last position can only be
      reached at one of the last two steps of the horizon. */
  lemma ThreePositionsLateArrival(a: Assignment, time: nat, e: nat)
    requires Binary(a) && time >= 1
    requires SatisfiesAll(a, BoardConstraints(3, time))
    requires e < time && Value(a, Cell(e, 2)) == 1
    ensures e + 2 >= time
  {
    if e + 2 < time {
      var e' := WindowSchedule(a, 3, time);
      assert e' == e;
      BoardConstraintsMeaning(a, 3, time);
      WindowSum(a, e, 0);
      WindowSum(a, e + 1, 0);
      RowOfThree(a, e);
      RowOfThree(a, e + 1);
      assert false;
    }
  }
}
