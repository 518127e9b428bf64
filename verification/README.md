# Megaman platform levels as a 0/1 integer program

This project models the encoding in `megaman.py`. That file turns a
platform level into a 0/1 integer program and hands it to an
integer-programming engine. The engine is not modelled.

A level is a string with one character per position:

- `x` is a normal platform.
- `.` is empty space (blink class 0).
- A digit `k` in `1`–`5` is a platform of class `k`. It is missing for `k` steps and then present for one.

The board is a `time × length` grid of boolean variables. `board[i, j]`
means "the actor is on position `j` at time step `i`". The horizon
`time` is `3 * length`.

The modules follow the source's functions:

- `LinearProgram` (linear_program.dfy) defines cells, terms and
  constraints. A constraint reads `Σ lhs rel constant + Σ rhs`. The
  module also defines an assignment of the board variables, what it
  means to satisfy a constraint (`Satisfies`), and the engine's `model`
  object (`Model`). `Model` is a class whose `St` appends to its
  `constraints` sequence.
- `Scanner` (scanner.dfy) models `findAllChars` as a method with a
  `while` loop over the string search `Find`. It is proved against
  `IndicesOf`.
- `MapEncoding` (map_encoding.dfy) models `addMapConstraints`:
  - the class → positions table;
  - the absence rule `Absent(k, i)`, which is `k == 0 || (i+1) % (k+1) != 0`;
  - one `board[i, j] == 0` for every absent (step, position) pair;
  - the loop over the six classes that adds each class's constraints to the model.
- `BoardEncoding` (board_encoding.dfy) models `addBoardConstraints`:
  - the start `board[0,0] == 1`;
  - the end, whose column sums to 1;
  - one row limit `Σ_j board[i,j] <= 1` per step;
  - the 2×3 jump windows. Window `(i, j)` sums rows `i..i+1` × columns `j..j+2`. It must equal `2 * (1 - Σ_{z<i} board[z, length-1])`.
- `Megaman` (megaman.dfy) models the set-up part of `solve`:
  - the short cut for levels of at most one position;
  - the horizon;
  - the board declaration;
  - the two constraint families;
  - the objective `Σ i * board[i,j] / (j+1)`, with exact rational weights.

  `Encode` is the program as a value. `Solve` builds that program through the `Model` object, step by step as the source does.

The code as written has the following properties, all proved:

- Every level of four or more positions gives an infeasible program. The
  step-0 window at start 1 must sum to 2. Row 0 is already used up by
  position 0, so steps 0 and 1 can put at most one mark there.
- Every three-position level can reach the end only at step 7 or 8 of
  its 9-step horizon.
- The source's own sample level `x.x` is feasible. The solution shown
  waits on position 0, is on position 2 at step 7, and is back on
  position 0 at step 8.
- A two-platform level like `xx` is feasible, with the end reached at step 1.

The encoding is a pure function of the level (`Solve` ensures
`s == Encode(level)`). So two calls on the same level build identical
programs.

Some consequences of `megaman.py` as written:

- A character that is no class marker (`x` or any other) gets no blink
  constraint, and no error is raised for characters outside `x . 1-5`.
- Window starts run over `range(length-2)`, that is `j < length - 2`,
  so a level of two positions has no window at all.
- The sample level `x.x` of megaman.py:140 has a solution, as above.
- No level of four or more positions has a solution, so the program
  handed to the engine for such a level is always infeasible.

A solution (`Megaman.Solution`) is an assignment that gives every board
variable 0 or 1 and meets every constraint. The 0/1 domain is the `bool`
kind megaman.py:34 gives the board. The program value records the cells
only, because every variable has that kind.

## Model

| member | source | states |
|---|---|---|
| `Scanner.Find` | megaman.py:65 | the string search returns -1 or an index at or after the start that holds the character |
| `Scanner.FindIsFirst` | megaman.py:65-70 | no index the search passes over holds the character; -1 means the character does not occur from the start on |
| `Scanner.IndicesFromFind` | megaman.py:68-70 | searching again just after a hit skips no occurrence: the remaining occurrences are exactly those from the next hit on |
| `Scanner.IndicesFromExact` | megaman.py:57-73 | the occurrences from a start index are listed each once, in strictly increasing order, and nothing else is listed |
| `Scanner.IndicesOfExact` | megaman.py:57-73 | findAllChars' result holds exactly the indices k with s[k] == c, strictly increasing, all in [0, len(s)); it is empty iff c does not occur |
| `Scanner.FindAllChars` | megaman.py:57-73 | the loop of repeated searches returns exactly IndicesOf(s, c); it terminates because each search starts after the previous hit |
| `MapEncoding.ClassOf` | megaman.py:83-88 | the markers '.', '1'..'5' stand for classes 0..5, each marker for exactly one class; every other character stands for none |
| `MapEncoding.ClassTable` | megaman.py:82-88 | the class table has an entry for each class 0..5, holding the positions of that class's marker |
| `MapEncoding.ClassesDisjoint` | megaman.py:82-88 | no position is listed under two classes |
| `MapEncoding.AbsentStepsExact` | megaman.py:100-102 | the steps generated for a class are exactly the i < time with class 0 or (i+1) % (k+1) != 0, each once, ascending |
| `MapEncoding.AbsentStepsCount` | megaman.py:102 | class 0 is missing at all time steps; class k >= 1 at time - time/(k+1) of them |
| `MapEncoding.PositionConstraintsCount` | megaman.py:100-102 | each position of class 0 gets time zero-constraints; each of class k >= 1 gets time - time/(k+1) |
| `MapEncoding.AddMapConstraints` | megaman.py:75-102 | the model's constraints become the old ones followed by the blink constraints of classes 0..5 in order; variables and objective are unchanged |
| `MapEncoding.MapConstraintsExact` | megaman.py:99-102 | every blink constraint is board[i,j] == 0 for an in-grid cell whose position is empty or missing at step i, and every such cell gets one |
| `MapEncoding.MapConstraintsMeaning` | megaman.py:100-102 | an assignment meets all blink constraints iff every empty cell and every missing platform is unoccupied |
| `MapEncoding.MapConstraintsInGrid` | megaman.py:100-102 | every blink constraint mentions only cells inside the time x length board |
| `MapEncoding.UnmarkedPositionUnconstrained` | megaman.py:82-102 | a position holding 'x' or an unrecognised character receives no blink constraint |
| `BoardEncoding.AddBoardConstraints` | megaman.py:118-136 | the model's constraints become the old ones followed by start, end, the row limits and the windows, in that order |
| `BoardEncoding.WindowConstraintsShape` | megaman.py:133-136 | there is exactly one window per (i, j) with i < time-1 and j < length-2, (time-1)*(length-2) in all, none when length == 2 |
| `BoardEncoding.WindowCellsExact` | megaman.py:133-134 | a window sums the six distinct cells of rows i..i+1 x columns j..j+2 with coefficient 1; its right side reads only the last column before step i, with coefficient -2 |
| `BoardEncoding.BoardConstraintsInGrid` | megaman.py:123-136 | every rule constraint mentions only cells inside the time x length board |
| `BoardEncoding.WindowMeaning` | megaman.py:133-134 | a window is met iff its six cells sum to 2 * (1 - number of earlier visits of the last position) |
| `BoardEncoding.BoardConstraintsMeaning` | megaman.py:123-136 | an assignment meets all rule constraints iff it starts on position 0, visits the last position exactly once, has at most one actor per step and meets every window |
| `BoardEncoding.ColumnMonotone` | megaman.py:134 | over boolean variables the number of earlier visits of a position never decreases with the step |
| `BoardEncoding.Arrival` | megaman.py:126 | a boolean column summing to 1 has exactly one set step e; its prefix sums are 0 up to e and 1 after |
| `BoardEncoding.RhsSchedule` | megaman.py:126 | over boolean variables the end constraint alone fixes one arrival step e; the window right-hand side 2*(1 - earlier visits of the end) is 2 for steps up to and including e and 0 after |
| `BoardEncoding.WindowSchedule` | megaman.py:126-136 | along any boolean assignment meeting the rules, the windows of steps up to the arrival step sum to 2 and the later ones to 0 |
| `BoardEncoding.LongLevelsInfeasible` | megaman.py:123-136 | for length >= 4 and time >= 2 no boolean assignment meets the rule constraints |
| `BoardEncoding.ThreePositionsLateArrival` | megaman.py:126-136 | with three positions any solution reaches the last position only at one of the last two steps |
| `Megaman.Grid` | megaman.py:34 | the board holds exactly the time x length cells, each once |
| `Megaman.Encode` | megaman.py:18-45 | a level of length <= 1 builds no program; otherwise the horizon is 3*length and the variables are exactly the time x length board |
| `Megaman.Solve` | megaman.py:18-45 | solve returns early for length <= 1 and otherwise builds, through the model object, exactly the program Encode describes |
| `Megaman.EncodeInGrid` | megaman.py:34-40 | every cell any constraint mentions is a declared board variable |
| `Megaman.EncodeMeaning` | megaman.py:37-40 | an assignment meets the whole program iff it respects the level's blink schedule and the rules of the game |
| `Megaman.LongLevelsHaveNoSolution` | megaman.py:28-40 | no assignment is a solution (0/1 on every board variable and meeting every constraint) of the program of any level of four or more positions |
| `Megaman.ObjectiveCells` | megaman.py:43-45 | the objective has exactly one summand per board variable: time*length summands, every board cell covered, no cell twice, none outside the board |
| `Megaman.ObjectiveWeights` | megaman.py:43-45 | each summand of board[i,j] has weight i/(j+1), never negative |
| `Megaman.WeightOrder` | megaman.py:42-45 | the weight i/(j+1) increases with the step and does not increase with the position, so later arrivals cost more |
| `Megaman.TwoPlatformsSolvable` | megaman.py:18-40 | a level of two normal platforms such as "xx" has the 0/1 solution board[0,0] = board[1,1] = 1 |
| `Megaman.GapLevelSolvable` | megaman.py:140 | the sample level "x.x" has a 0/1 solution, one that reaches position 2 at step 7 and is back on position 0 at step 8 |
| `Megaman.ThreePositionsArrival` | megaman.py:126-136 | every solution for a three-position level reaches the end at step 7 or 8 |
| `LinearProgram.Model.constructor` | megaman.py:31 | a new model has no variables, constraints or objective |
| `LinearProgram.Model.Var` | megaman.py:34 | declaring the board appends its cells to the variables and changes nothing else; their bool kind is the 0/1 clause of `Megaman.Solution` |
| `LinearProgram.Model.St` | megaman.py:123-133 | adding constraints appends them after the existing ones and changes nothing else |
| `LinearProgram.Model.Min` | megaman.py:43 | setting the objective replaces it and changes nothing else |

## Left out

- The engine calls `model.solvopt` and `model.solve` (megaman.py:48-49) are left out. The engine is an external library. The model stops at the program handed to it.
- Printing the solved grid through `.primal` (megaman.py:52-55) is left out. It is console output of solver results.
- The commented-out debug print block (megaman.py:104-116) is left out. It is not logic.
- The `__main__` call `solve('x.x')` (megaman.py:140) is not modelled as a call. Its level is covered by `Megaman.GapLevelSolvable` and `Megaman.ThreePositionsArrival`.
- Floating-point evaluation of the objective is left out. The weight `i/(j+1)` is an exact `real`, and no optimisation is modelled.
- The `board` dictionary is not passed to `addMapConstraints` and `addBoardConstraints`. Constraints name board variables by their `Cell(row, col)` directly.
- `model.st` is called with a single constraint at megaman.py:123 and 126. In the model that single constraint is passed as a one-element sequence.
- The class table is a dict with keys 0..5. The model iterates it in ascending key order, which is the order CPython 2 uses for these small integer keys.
- `Scanner.Find`: its ensures does not say the hit is the first one. That half of `str.find`'s promise is stated and proved separately in `Scanner.FindIsFirst`, to keep the loop proof of `FindAllChars` cheap.
- `LinearProgram.Model.Var`: the variable kind `bool` of megaman.py:34 is not recorded in the model or in `Setup`. Every variable of this program has that kind, so it is stated once, as the `Binary(a)` clause of `Megaman.Solution`, which every solution lemma uses.
