/** solve: the set-up of the integer program for one level -- the short
    cut for trivial levels, the horizon, the board of boolean variables,
    the blink and rule constraints and the objective. */
module Megaman {
  import opened LinearProgram
  import opened Scanner
  import opened MapEncoding
  import opened BoardEncoding

  /** The board variables board[i, j] for every time step i < time and
      position j < length, step by step. */
  function Grid(time: nat, length: nat): (g: seq<Cell>)
    ensures |g| == time * length
    ensures forall c :: c in g <==> InGrid(c, time, length)
    ensures forall p, q :: 0 <= p < q < |g| ==> g[p] != g[q]
  {
    if time == 0 then []
    else
      var prev, row := Grid(time - 1, length), RowCells(time - 1, length);
      assert forall p :: 0 <= p < |prev| ==> prev[p] in prev;
      assert forall c :: c in row <==> c.row == time - 1 && c.col < length by {
        forall c: Cell | c.row == time - 1 && c.col < length
          ensures c in row
        {
          assert row[c.col] == c;
        }
      }
      assert (time - 1) * length + length == time * length;
      prev + row
  }

  /** The objective weight of board[i, j]: i / (j + 1), exactly. */
  function Weight(i: nat, j: nat): real
  {
    (i as real) / ((j + 1) as real)
  }

  /** Σ_{i, j} i * board[i, j] / (j + 1), one summand per board variable. */
  function Objective(time: nat, length: nat): seq<WeightedCell>
  {
    var g := Grid(time, length);
    seq(|g|, k requires 0 <= k < |g| => WeightedCell(Weight(g[k].row, g[k].col), g[k]))
  }

  /** What solve hands to the engine: nothing for a level of at most one
      position, otherwise the horizon, the board and the program. */
  datatype Setup =
    | AlreadyComplete
    | Program(time: nat, length: nat, variables: seq<Cell>,
              constraints: seq<Constraint>, objective: seq<WeightedCell>)

  /** The program solve builds for a level. */
  function Encode(level: string): (r: Setup)
    ensures |level| <= 1 <==> r == AlreadyComplete
    ensures r.Program? ==> r.length == |level| && r.time == 3 * |level|
    ensures r.Program? ==> |r.variables| == r.time * r.length
    ensures r.Program? ==> forall c :: c in r.variables <==> InGrid(c, r.time, r.length)
  {
    if |level| <= 1 then AlreadyComplete
    else
      var length := |level|;
      var time := 3 * length;
      Program(time, length, Grid(time, length),
              MapConstraints(level, time) + BoardConstraints(length, time),
              Objective(time, length))
  }

  /** solve, up to the call into the engine: a level of at most one
      position is already complete and builds no model; otherwise the
      horizon is three steps per position, the board is declared, the
      blink and rule constraints are added and the objective is set. */
  method Solve(level: string) returns (s: Setup)
    ensures s == Encode(level)
    ensures |level| <= 1 ==> s == AlreadyComplete
    ensures |level| >= 2 ==> s.Program? && s.time == 3 * |level| && |s.variables| == s.time * |level|
  {
    var length := |level|;
    if length <= 1 {
      return AlreadyComplete;
    }
    var time := 3 * length;
    var model := new Model();
    model.Var(Grid(time, length));
    AddMapConstraints(model, level, time);
    AddBoardConstraints(model, length, time);
    model.Min(Objective(time, length));
    s := Program(time, length, model.variables, model.constraints, model.objective);
  }

  /** An assignment the engine may return for the program: the board is
      declared as bool variables, so every value is 0 or 1, and every
      constraint holds. */
  predicate Solution(s: Setup, a: Assignment)
  {
    s.Program? && Binary(a) && SatisfiesAll(a, s.constraints)
  }

  // ---------------------------------------------------------------------
  // Properties of the whole program

  /** Every cell any constraint mentions is one of the declared board
      variables. */
  lemma EncodeInGrid(level: string)
    ensures Encode(level).Program? ==>
              forall c :: c in Encode(level).constraints ==> MentionsOnlyGrid(c, Encode(level).time, |level|)
  {
    if |level| >= 2 {
      MapConstraintsInGrid(level, 3 * |level|);
      BoardConstraintsInGrid(|level|, 3 * |level|);
    }
  }

  /** An assignment meets the whole program exactly when it respects the
      blink schedule of the level and the rules of the game. */
  lemma EncodeMeaning(level: string, a: Assignment)
    requires |level| >= 2
    ensures SatisfiesAll(a, Encode(level).constraints) <==>
            BlinkRespected(a, level, 3 * |level|) && RulesRespected(a, |level|, 3 * |level|)
  {
    var time := 3 * |level|;
    var m, b := MapConstraints(level, time), BoardConstraints(|level|, time);
    MapConstraintsMeaning(a, level, time);
    BoardConstraintsMeaning(a, |level|, time);
    assert SatisfiesAll(a, m + b) <==> SatisfiesAll(a, m) && SatisfiesAll(a, b);
  }

  /** As written, no level of four or more positions has a solution:
      the engine can only report it infeasible. */
  lemma LongLevelsHaveNoSolution(level: string, a: Assignment)
    requires |level| >= 4
    ensures !Solution(Encode(level), a)
  {
    if !Binary(a) {
      return;
    }
    var time := 3 * |level|;
    var b := BoardConstraints(|level|, time);
    BoardEncoding.LongLevelsInfeasible(a, |level|, time);
    var c :| c in b && !Satisfies(a, c);
    assert c in Encode(level).constraints;
  }

  /** The objective has exactly one summand per board variable: every
      board cell gets a summand, no cell gets two, and no summand sits
      outside the board. */
  lemma ObjectiveCells(time: nat, length: nat)
    ensures |Objective(time, length)| == time * length
    ensures forall w :: w in Objective(time, length) ==> InGrid(w.cell, time, length)
    ensures forall c :: InGrid(c, time, length) ==> exists w :: w in Objective(time, length) && w.cell == c
    ensures forall p, q :: 0 <= p < q < |Objective(time, length)| ==>
              Objective(time, length)[p].cell != Objective(time, length)[q].cell
  {
    var g, obj := Grid(time, length), Objective(time, length);
    forall w | w in obj
      ensures InGrid(w.cell, time, length)
    {
      var k :| 0 <= k < |g| && obj[k] == w;
      assert g[k] in g;
    }
    forall c | InGrid(c, time, length)
      ensures exists w :: w in obj && w.cell == c
    {
      var k :| 0 <= k < |g| && g[k] == c;
      assert obj[k].cell == c;
    }
  }

  /** The weights prefer shorter runs: they grow with the time step and
      shrink with the position. */
  lemma WeightOrder()
    ensures forall i: nat, i': nat, j: nat :: i < i' ==> Weight(i, j) < Weight(i', j)
    ensures forall i: nat, j: nat, j': nat :: j < j' ==> Weight(i, j') <= Weight(i, j)
  {
  }

  /** Each summand of the objective is i * board[i, j] / (j + 1), and its
      weight is never negative. */
  lemma ObjectiveWeights(time: nat, length: nat)
    ensures forall w :: w in Objective(time, length) ==>
              w.weight == Weight(w.cell.row, w.cell.col) && w.weight >= 0.0
  {
    var g, obj := Grid(time, length), Objective(time, length);
    forall w | w in obj
      ensures w.weight == Weight(w.cell.row, w.cell.col) && w.weight >= 0.0
    {
      var k :| 0 <= k < |g| && obj[k] == w;
    }
  }

  /** The two-platform solution: position 0 at step 0, position 1 at step 1. */
  function TwoPlatformsRun(): Assignment
  {
    map[Cell(0, 0) := 1, Cell(1, 1) := 1]
  }

  lemma TwoPlatformsRows(i: nat)
    ensures Sum(TwoPlatformsRun(), RowCells(i, 2)) <= 1
  {
    var a := TwoPlatformsRun();
    assert RowCells(i, 2) == [Cell(i, 0)] + [Cell(i, 1)];
    SumAppend(a, [Cell(i, 0)], [Cell(i, 1)]);
    SumSingleton(a, Cell(i, 0));
    SumSingleton(a, Cell(i, 1));
  }

  lemma TwoPlatformsEnd()
    ensures Sum(TwoPlatformsRun(), ColumnCells(1, 6)) == 1
  {
    var a := TwoPlatformsRun();
    assert ColumnCells(1, 0) == [];
    ColumnStep(a, 1, 0);
    ColumnStep(a, 1, 1);
    ColumnStep(a, 1, 2);
    ColumnStep(a, 1, 3);
    ColumnStep(a, 1, 4);
    ColumnStep(a, 1, 5);
  }

  lemma TwoPlatformsRespected(level: string)
    requires |level| == 2 && level[0] !in Markers && level[1] !in Markers
    ensures BlinkRespected(TwoPlatformsRun(), level, 6)
    ensures RulesRespected(TwoPlatformsRun(), 2, 6)
  {
    var a := TwoPlatformsRun();
    forall i: nat | i < 6
      ensures Sum(a, RowCells(i, 2)) <= 1
    {
      TwoPlatformsRows(i);
    }
    TwoPlatformsEnd();
  }

  /** A level of two normal platforms (such as "xx") has a solution:
      position 0 at step 0 and position 1 at step 1. */
  lemma TwoPlatformsSolvable(level: string)
    requires |level| == 2 && level[0] !in Markers && level[1] !in Markers
    ensures Solution(Encode(level), TwoPlatformsRun())
  {
    TwoPlatformsRespected(level);
    EncodeMeaning(level, TwoPlatformsRun());
  }

  /** A solution for a three-position level with a gap in the middle (the
      level "x.x"): the actor waits on position 0 for steps 0 .. 6, is on
      position 2 at step 7 and back on position 0 at step 8. */
  function GapRun(): Assignment
  {
    map[Cell(0, 0) := 1, Cell(1, 0) := 1, Cell(2, 0) := 1, Cell(3, 0) := 1, Cell(4, 0) := 1,
        Cell(5, 0) := 1, Cell(6, 0) := 1, Cell(7, 2) := 1, Cell(8, 0) := 1]
  }

  lemma GapValue(i: nat, j: nat)
    requires i < 9 && j < 3
    ensures Value(GapRun(), Cell(i, j)) == if (j == 0 && i != 7) || (j == 2 && i == 7) then 1 else 0
  {
  }

  lemma GapBinary()
    ensures Binary(GapRun())
  {
    forall c | c in GapRun()
      ensures GapRun()[c] == 1
    {
    }
  }

  lemma GapRows(i: nat)
    requires i < 9
    ensures Sum(GapRun(), RowCells(i, 3)) == 1
  {
    RowOfThree(GapRun(), i);
  }

  lemma GapEnd(i: nat)
    requires i <= 9
    ensures Sum(GapRun(), ColumnCells(2, i)) == if i <= 7 then 0 else 1
  {
    var a := GapRun();
    assert ColumnCells(2, 0) == [];
    if i > 0 {
      GapEnd(i - 1);
      ColumnStep(a, 2, i - 1);
    }
  }

  lemma GapWindows(i: nat)
    requires i < 8
    ensures Sum(GapRun(), WindowCells(i, 0)) == 2 * (1 - Sum(GapRun(), ColumnCells(2, i)))
  {
    WindowSum(GapRun(), i, 0);
    GapEnd(i);
    GapValue(i, 0);
    GapValue(i, 1);
    GapValue(i, 2);
    GapValue(i + 1, 0);
    GapValue(i + 1, 1);
    GapValue(i + 1, 2);
  }

  lemma GapBlink(level: string)
    requires |level| == 3 && level[0] !in Markers && level[1] == '.' && level[2] !in Markers
    ensures BlinkRespected(GapRun(), level, 9)
  {
    assert ClassOf('.') == Some(0);
    forall i: nat, j: nat | i < 9 && j < 3 && Blinked(level, i, j)
      ensures Value(GapRun(), Cell(i, j)) == 0
    {
      assert j == 1;
      GapValue(i, j);
    }
  }

  lemma GapRules()
    ensures RulesRespected(GapRun(), 3, 9)
  {
    var a := GapRun();
    forall i: nat | i < 9
      ensures Sum(a, RowCells(i, 3)) <= 1
    {
      GapRows(i);
    }
    forall i: nat, j: nat | i + 1 < 9 && j < WindowWidth(3)
      ensures Sum(a, WindowCells(i, j)) == 2 * (1 - Sum(a, ColumnCells(2, i)))
    {
      GapWindows(i);
    }
    GapEnd(9);
    GapValue(0, 0);
  }

  /** The level "x.x" -- or any level of three positions with empty space
      in the middle and normal platforms at both ends -- has a solution,
      and in it the actor is back on position 0 after reaching the end. */
  lemma GapLevelSolvable(level: string)
    requires |level| == 3 && level[0] !in Markers && level[1] == '.' && level[2] !in Markers
    ensures Solution(Encode(level), GapRun())
    ensures Value(GapRun(), Cell(7, 2)) == 1 && Value(GapRun(), Cell(8, 0)) == 1
  {
    GapBlink(level);
    GapRules();
    EncodeMeaning(level, GapRun());
    GapBinary();
    GapValue(7, 2);
    GapValue(8, 0);
  }

  /** Every solution for a level of three positions reaches the last
      position at step 7 or 8 of the 9-step horizon, never earlier. */
  lemma ThreePositionsArrival(level: string, a: Assignment, e: nat)
    requires |level| == 3 && Solution(Encode(level), a)
    requires e < 9 && Value(a, Cell(e, 2)) == 1
    ensures e == 7 || e == 8
  {
    EncodeMeaning(level, a);
    BoardConstraintsMeaning(a, 3, 9);
    ThreePositionsLateArrival(a, 9, e);
  }
}
