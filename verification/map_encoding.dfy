/** The blink encoding: which board variables the level's missing
    platforms force to zero. */
module MapEncoding {
  import opened LinearProgram
  import opened Scanner

  /** Class 0 is empty space, marked '.'; class k in 1 .. 5 is a platform,
      marked by the digit k, that is missing for k steps and then present
      for one. */
  type BlinkClass = k: nat | k < 6

  /** The marker of class k is Markers[k]. */
  const Markers: string := ".12345"

  function Marker(k: BlinkClass): char
  {
    Markers[k]
  }

  datatype Option<T> = None | Some(value: T)

  /** The class a level character stands for; the normal platform 'x'
      and every other character stand for none. */
  function ClassOf(ch: char): (r: Option<BlinkClass>)
    ensures r.Some? <==> ch in Markers
    ensures r.Some? ==> Marker(r.value) == ch
    ensures forall k: BlinkClass :: Marker(k) == ch ==> r == Some(k)
  {
    if ch == '.' then Some(0)
    else if ch == '1' then Some(1)
    else if ch == '2' then Some(2)
    else if ch == '3' then Some(3)
    else if ch == '4' then Some(4)
    else if ch == '5' then Some(5)
    else None
  }

  /** A position of class k is missing at time step i. Counting steps
      from 1, class k >= 1 is present exactly on every (k+1)-th step. */
  predicate Absent(k: BlinkClass, i: nat)
  {
    k == 0 || (i + 1) % (k + 1) != 0
  }

  /** Whether the level forces position j to be empty at time step i. */
  predicate Blinked(level: string, i: nat, j: nat)
    requires j < |level|
  {
    match ClassOf(level[j])
    case None => false
    case Some(k) => Absent(k, i)
  }

  /** The time steps in [0, time) at which class k is missing, ascending. */
  function AbsentSteps(k: BlinkClass, time: nat): seq<nat>
  {
    if time == 0 then []
    else AbsentSteps(k, time - 1) + (if Absent(k, time - 1) then [time - 1] else [])
  }

  /** board[i, j] == 0 */
  function ZeroAt(i: nat, j: nat): Constraint
  {
    Constraint(Unit([Cell(i, j)]), Eq, 0, [])
  }

  /** The cell a zero-constraint is about. */
  function Target(c: Constraint): Cell
    requires c.lhs != []
  {
    c.lhs[0].cell
  }

  /** The constraints for one position j of class k, one per missing step. */
  function PositionConstraints(k: BlinkClass, j: nat, time: nat): seq<Constraint>
  {
    var steps := AbsentSteps(k, time);
    seq(|steps|, n requires 0 <= n < |steps| => ZeroAt(steps[n], j))
  }

  /** The constraints for every listed position of class k, position by
      position. */
  function ClassConstraints(k: BlinkClass, positions: seq<nat>, time: nat): seq<Constraint>
  {
    if positions == [] then []
    else PositionConstraints(k, positions[0], time) + ClassConstraints(k, positions[1..], time)
  }

  /** The constraints of classes 0 .. n-1, class by class. */
  function ConstraintsUpTo(level: string, time: nat, n: nat): seq<Constraint>
    requires n <= 6
  {
    if n == 0 then []
    else ConstraintsUpTo(level, time, n - 1) + ClassConstraints(n - 1, IndicesOf(level, Marker(n - 1)), time)
  }

  /** Every blink constraint of the level over a horizon of time steps. */
  function MapConstraints(level: string, time: nat): seq<Constraint>
  {
    ConstraintsUpTo(level, time, 6)
  }

  /** The map constraint on cell (i, j) is met exactly when the cell is 0. */
  predicate ZeroesBlinkedCell(level: string, time: nat, c: Constraint)
  {
    c.lhs != [] &&
    var cell := Target(c);
    c == ZeroAt(cell.row, cell.col) && cell.row < time && cell.col < |level| &&
    Blinked(level, cell.row, cell.col)
  }

  /** An assignment leaves every missing platform and every empty cell unoccupied. */
  predicate BlinkRespected(a: Assignment, level: string, time: nat)
  {
    forall i: nat, j: nat :: i < time && j < |level| && Blinked(level, i, j) ==> Value(a, Cell(i, j)) == 0
  }

  // ---------------------------------------------------------------------
  // The class table and the accumulation into the model

  /** The class -> positions table: for each class, the positions holding
      its marker, in ascending order. */
  method ClassTable(level: string) returns (blocks: map<BlinkClass, seq<nat>>)
    ensures forall k: BlinkClass :: k in blocks && blocks[k] == IndicesOf(level, Marker(k))
  {
    blocks := map[];
    var positions := FindAllChars(level, '.');
    blocks := blocks[0 := positions];
    positions := FindAllChars(level, '1');
    blocks := blocks[1 := positions];
    positions := FindAllChars(level, '2');
    blocks := blocks[2 := positions];
    positions := FindAllChars(level, '3');
    blocks := blocks[3 := positions];
    positions := FindAllChars(level, '4');
    blocks := blocks[4 := positions];
    positions := FindAllChars(level, '5');
    blocks := blocks[5 := positions];
  }

  /** addMapConstraints: adds, class by class, the blink constraints of
      the level to the model. */
  method AddMapConstraints(model: Model, level: string, time: nat)
    modifies model
    ensures model.constraints == old(model.constraints) + MapConstraints(level, time)
    ensures model.variables == old(model.variables) && model.objective == old(model.objective)
  {
    var blocks := ClassTable(level);
    for block := 0 to 6
      invariant model.constraints == old(model.constraints) + ConstraintsUpTo(level, time, block)
      invariant model.variables == old(model.variables) && model.objective == old(model.objective)
    {
      assert blocks[block] == IndicesOf(level, Marker(block));
      assert ConstraintsUpTo(level, time, block + 1) ==
             ConstraintsUpTo(level, time, block) + ClassConstraints(block, blocks[block], time);
      model.St(ClassConstraints(block, blocks[block], time));
    }
  }

  // ---------------------------------------------------------------------
  // What the constraints mean

  /** No position belongs to two classes. */
  lemma ClassesDisjoint(level: string, k1: BlinkClass, k2: BlinkClass, j: nat)
    requires k1 != k2 && j in IndicesOf(level, Marker(k1))
    ensures j !in IndicesOf(level, Marker(k2))
  {
    IndicesOfExact(level, Marker(k1));
    IndicesOfExact(level, Marker(k2));
  }

  lemma {:induction false} AbsentStepsExact(k: BlinkClass, time: nat)
    ensures forall i: nat :: i in AbsentSteps(k, time) <==> i < time && Absent(k, i)
    ensures Increasing(AbsentSteps(k, time))
  {
    if time > 0 {
      AbsentStepsExact(k, time - 1);
      var prev := AbsentSteps(k, time - 1);
      forall p | 0 <= p < |prev|
        ensures prev[p] < time - 1
      {
        assert prev[p] in prev;
      }
    }
  }

  lemma DivUnique(t: int, m: int, q: int, r: int)
    requires 0 < m && 0 <= r < m && t == q * m + r
    ensures t / m == q && t % m == r
  {
    var q', r' := t / m, t % m;
    assert (q - q') * m == r' - r;
    if q - q' >= 1 {
      MulAtLeast(q - q', m);
    } else if q' - q >= 1 {
      MulAtLeast(q' - q, m);
    }
  }

  lemma MulAtLeast(d: int, m: int)
    requires d >= 1 && m > 0
    ensures d * m >= m
    decreases d
  {
    if d > 1 {
      MulAtLeast(d - 1, m);
      assert d * m == (d - 1) * m + m;
    }
  }

  /** One more step adds one to t / m exactly when the new step count is a multiple of m. */
  lemma DivStep(t: nat, m: nat)
    requires 0 < t && 0 < m
    ensures t / m == (t - 1) / m + (if t % m == 0 then 1 else 0)
  {
    var q, r := (t - 1) / m, (t - 1) % m;
    if r + 1 < m {
      DivUnique(t, m, q, r + 1);
    } else {
      DivUnique(t, m, q + 1, 0);
    }
  }

  lemma {:induction false} AbsentStepsCount(k: BlinkClass, time: nat)
    ensures |AbsentSteps(k, time)| == if k == 0 then time else time - time / (k + 1)
  {
    if time > 0 {
      AbsentStepsCount(k, time - 1);
      if k > 0 {
        DivStep(time, k + 1);
      }
    }
  }

  /** A position of class 0 gets one zero-constraint per time step; one of
      class k >= 1 gets one per step at which it is missing,
      time - time / (k+1) in all. */
  lemma PositionConstraintsCount(k: BlinkClass, j: nat, time: nat)
    ensures |PositionConstraints(k, j, time)| == if k == 0 then time else time - time / (k + 1)
  {
    AbsentStepsCount(k, time);
  }

  lemma ZeroAtMeaning(a: Assignment, i: nat, j: nat)
    ensures Target(ZeroAt(i, j)) == Cell(i, j)
    ensures Satisfies(a, ZeroAt(i, j)) <==> Value(a, Cell(i, j)) == 0
  {
    SumSingleton(a, Cell(i, j));
  }

  lemma {:induction false} ClassConstraintsSound(k: BlinkClass, positions: seq<nat>, time: nat, c: Constraint)
    requires c in ClassConstraints(k, positions, time)
    ensures c.lhs != [] && c == ZeroAt(Target(c).row, Target(c).col)
    ensures Target(c).col in positions && Target(c).row < time && Absent(k, Target(c).row)
  {
    if positions != [] {
      var block := PositionConstraints(k, positions[0], time);
      if c in block {
        var steps := AbsentSteps(k, time);
        var n :| 0 <= n < |block| && block[n] == c;
        AbsentStepsExact(k, time);
        assert steps[n] in steps;
        ZeroAtMeaning(map[], steps[n], positions[0]);
      } else {
        ClassConstraintsSound(k, positions[1..], time, c);
      }
    }
  }

  lemma {:induction false} ClassConstraintsComplete(k: BlinkClass, positions: seq<nat>, time: nat, i: nat, j: nat)
    requires j in positions && i < time && Absent(k, i)
    ensures ZeroAt(i, j) in ClassConstraints(k, positions, time)
  {
    if positions[0] == j {
      var steps := AbsentSteps(k, time);
      AbsentStepsExact(k, time);
      var n :| 0 <= n < |steps| && steps[n] == i;
      assert PositionConstraints(k, j, time)[n] == ZeroAt(i, j);
    } else {
      ClassConstraintsComplete(k, positions[1..], time, i, j);
    }
  }

  lemma {:induction false} ConstraintsUpToSound(level: string, time: nat, n: nat, c: Constraint)
    requires n <= 6 && c in ConstraintsUpTo(level, time, n)
    ensures ZeroesBlinkedCell(level, time, c)
  {
    if n > 0 {
      var positions := IndicesOf(level, Marker(n - 1));
      if c in ClassConstraints(n - 1, positions, time) {
        ClassConstraintsSound(n - 1, positions, time, c);
        IndicesOfExact(level, Marker(n - 1));
      } else {
        ConstraintsUpToSound(level, time, n - 1, c);
      }
    }
  }

  lemma {:induction false} ConstraintsUpToComplete(level: string, time: nat, n: nat, i: nat, j: nat, k: BlinkClass)
    requires n <= 6 && k < n && j < |level| && level[j] == Marker(k) && i < time && Absent(k, i)
    ensures ZeroAt(i, j) in ConstraintsUpTo(level, time, n)
  {
    if k == n - 1 {
      IndicesOfExact(level, Marker(k));
      ClassConstraintsComplete(k, IndicesOf(level, Marker(k)), time, i, j);
    } else {
      ConstraintsUpToComplete(level, time, n - 1, i, j, k);
    }
  }

  /** The blink constraints are exactly one  board[i, j] == 0  for every
      in-grid cell whose position is empty space, or a platform missing at
      step i; a position holding 'x' or any unrecognised character is
      never constrained. */
  lemma MapConstraintsExact(level: string, time: nat)
    ensures forall c :: c in MapConstraints(level, time) ==> ZeroesBlinkedCell(level, time, c)
    ensures forall i: nat, j: nat :: i < time && j < |level| && Blinked(level, i, j) ==>
              ZeroAt(i, j) in MapConstraints(level, time)
  {
    forall c | c in MapConstraints(level, time)
      ensures ZeroesBlinkedCell(level, time, c)
    {
      ConstraintsUpToSound(level, time, 6, c);
    }
    forall i: nat, j: nat | i < time && j < |level| && Blinked(level, i, j)
      ensures ZeroAt(i, j) in MapConstraints(level, time)
    {
      ConstraintsUpToComplete(level, time, 6, i, j, ClassOf(level[j]).value);
    }
  }

  /** An assignment meets every blink constraint exactly when it leaves
      every empty cell and every missing platform unoccupied. */
  lemma MapConstraintsMeaning(a: Assignment, level: string, time: nat)
    ensures SatisfiesAll(a, MapConstraints(level, time)) <==> BlinkRespected(a, level, time)
  {
    MapConstraintsExact(level, time);
    var cs := MapConstraints(level, time);
    if SatisfiesAll(a, cs) {
      forall i: nat, j: nat | i < time && j < |level| && Blinked(level, i, j)
        ensures Value(a, Cell(i, j)) == 0
      {
        ZeroAtMeaning(a, i, j);
      }
    }
    if BlinkRespected(a, level, time) {
      forall c | c in cs
        ensures Satisfies(a, c)
      {
        ZeroAtMeaning(a, Target(c).row, Target(c).col);
      }
    }
  }

  /** Every blink constraint mentions only cells of the time x length board. */
  lemma MapConstraintsInGrid(level: string, time: nat)
    ensures forall c :: c in MapConstraints(level, time) ==> MentionsOnlyGrid(c, time, |level|)
  {
    MapConstraintsExact(level, time);
    forall c | c in MapConstraints(level, time)
      ensures MentionsOnlyGrid(c, time, |level|)
    {
      assert c.lhs + c.rhs == [Term(1, Target(c))];
    }
  }

  /** A position whose character is no class marker ('x' or anything
      unrecognised) receives no blink constraint at all. */
  lemma UnmarkedPositionUnconstrained(level: string, time: nat, j: nat)
    requires j < |level| && level[j] !in Markers
    ensures forall c :: c in MapConstraints(level, time) ==> c.lhs != [] && Target(c).col != j
  {
    MapConstraintsExact(level, time);
  }
}
