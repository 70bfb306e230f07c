# Predator and prey: a verified model of the grid update

The program is a cellular automaton. A grid of `columns × rows` cells holds,
in two parallel arrays, a kind per cell (Empty, Predator or Prey) and an
integer health per cell. Cell (x, y) lives at linear index `y * columns + x`.
At start-up every cell gets a kind from a uniform draw in [0, 100], and every
health (Empty cells included) is 100. Each displayed frame then runs one pass
over the grid, from the last row to the first and, within a row, from the
last column to the first. In its turn a cell:

1. decays or regenerates: a Predator loses 1 health (not below 0), a Prey
   gains 5 (not above 100), an Empty cell is unchanged;
2. looks at one neighbour at an offset (dx, dy) in {-1, 0, 1}²; when that
   neighbour is off the grid or is the cell itself, nothing more happens;
3. otherwise interacts with it, by the pair of kinds:
   - a Predator whose health has decayed to 0 (so at most 1 before its
     turn) starves;
   - a Predator moves into an Empty neighbour;
   - a Predator converts a Prey neighbour and gains a quarter of its health;
   - a Prey resets its own health to 10 and spawns a Prey of health 10 into
     an Empty neighbour;
4. has its colour written into the pixel buffer.

The model has four parts:

- `Creatures` (creatures.dfy) holds the kinds, the initial draw and the colour channels.
- `Rules` (rules.dfy) gives the update rule as pure functions over a `Grid`
  value. `Decay`, `NeighborCoordinates`, `Sees`, `Move` and `Interact` are
  the parts of one turn, and `Step` is the whole turn. `RowFrom`/`RowsFrom`
  are the inner and outer loops of a frame, `Pass` is one frame and `Run` is
  any number of frames. `Turn`, `PaintedRowFrom` and `PaintedRowsFrom` do the
  same and also paint the image. `Initial` is the grid right after start-up.
- `RuleProperties` (rule_properties.dfy) holds the lemmas about those functions.
- `Simulation` (world.dfy) is the program's own form. The class `World`
  has `creatures`, `healths` and `pixels` arrays that its methods update
  in place. The `ensures` of `Move`, `Interact`, `StepCell`, `StepRow` and
  `Pass` tie the new arrays to the matching function of `Rules` applied to
  the old ones; `Populate` ties the kinds to `Initial` of the draws, and the
  constructor states its fresh arrays outright. `Simulation.Start` creates a
  `World` and fills it, leaving exactly `Initial(draws)`.

Randomness becomes input. The initial draws are a `seq<Draw>` with
`Draw = [0, 100]`. The neighbour offsets are one `Offset(dx, dy)` per cell
and per frame, and cell k uses `offsets[k]`.

## Model

| member | source | states |
|---|---|---|
| `Creatures.RandomCreature` | src/main.cpp:188-204 | a draw above 50 gives Empty, 6..50 gives Prey, 0..5 gives Predator (each as an if-and-only-if) |
| `Creatures.DrawShares` | src/main.cpp:190-203 | of the 101 equally likely draws, exactly 50 give Empty, 45 give Prey and 6 give Predator |
| `Creatures.ChannelValues` | src/main.cpp:210-218 | `Channels`: every channel fits in a byte and blue is 0; the colour is black exactly for Empty, pure red (255, 0, 0) exactly for a Predator, pure green (0, 255, 0) exactly for a Prey |
| `Creatures.ChannelsIdentifyCreature` | src/main.cpp:210-218 | the colour channels chosen for a kind tell the three kinds apart |
| `Rules.Index` | src/main.cpp:65 | the linear index of an in-grid cell, and so of an in-bounds neighbour, lies in [0, columns*rows) |
| `Rules.LinearIndex` | src/main.cpp:65 | `y*columns + x` is in range, and `%`/`/` by `columns` recover x and y from it, so distinct cells have distinct indices |
| `Rules.TruncDiv` | src/main.cpp:131 | C++ integer division: the remainder has the sign of the dividend and is smaller than the divisor |
| `RuleProperties.DecayBounds` | src/main.cpp:69-79 | `Rules.Decay` keeps a health in [0, 100] there, never raises a Predator's health above its old value (or 0), never lowers a Prey's, and leaves an Empty cell's health alone |
| `RuleProperties.NeighborhoodExact` | src/main.cpp:220-226 | `Rules.NeighborCoordinates` can pick exactly the cells of the 3x3 block around (x, y), in both directions |
| `RuleProperties.SelfOnlyAtZeroOffset` | src/main.cpp:81-83 | the neighbour is the cell itself exactly when the offset is (0, 0) |
| `RuleProperties.SeesOtherCell` | src/main.cpp:82-84 | `Rules.Sees` holds exactly when the neighbour is another in-grid cell, and then the two linear indices differ |
| `RuleProperties.MoveEffect` | src/main.cpp:88-97 | `Rules.Move` empties the cell with health 0, gives a different target the cell's kind and health, and changes no other index |
| `RuleProperties.InteractFrame` | src/main.cpp:106-169 | `Rules.Interact` changes at most the acting cell and its neighbour and keeps every health in [0, 100] |
| `Rules.Step` | src/main.cpp:65-170 | one turn keeps both sequences at length columns*rows and changes at most the cell's index and, when the neighbour is valid, the neighbour's index |
| `Rules.RowFrom` | src/main.cpp:62-173 | the inner loop: the cells of a row from the last column down to x, each stepped once in that order, keep the grid's shape |
| `Rules.RowsFrom` | src/main.cpp:59-174 | the outer loop: the rows from the last down to y, each swept by `RowFrom`, keep the grid's shape |
| `Rules.Pass` | src/main.cpp:59-174 | one whole frame, rows last to first and columns last to first, keeps the grid's shape |
| `Rules.AfterTurn` | src/main.cpp:59-173 | the grid of a frame right after cell (x, y)'s own turn keeps the grid's shape |
| `Rules.Turn` | src/main.cpp:172 | a turn followed by the pixel write keeps the grid and the image the size of the grid |
| `Rules.PaintedRowFrom` | src/main.cpp:62-173 | the inner loop with every cell painted right after its turn keeps the scene's shape |
| `Rules.PaintedRowsFrom` | src/main.cpp:59-174 | the outer loop with every cell painted right after its turn keeps the scene's shape |
| `Rules.Run` | src/main.cpp:48-181 | any number of frames keep the grid's shape |
| `Rules.Initial` | src/main.cpp:36-46 | the start-up grid has one cell per draw, kind `RandomCreature(draws[k])` in cell k, and every health MaxHealth (100), Empty cells included |
| `RuleProperties.StepKeepsHealthy` | src/main.cpp:69-170 | if every health is in [0, 100] before a turn, every health is in [0, 100] after it |
| `RuleProperties.RowKeepsHealthy` | src/main.cpp:62-173 | every prefix of a row's sweep keeps every health in [0, 100] |
| `RuleProperties.RowsKeepHealthy` | src/main.cpp:59-174 | every prefix of a frame, row by row, keeps every health in [0, 100] |
| `RuleProperties.PassKeepsHealthy` | src/main.cpp:59-174 | a whole frame keeps every health in [0, 100] |
| `RuleProperties.RunKeepsHealthy` | src/main.cpp:48-181 | any number of frames keep every health in [0, 100] |
| `RuleProperties.InitialRunsHealthy` | src/main.cpp:36-46 | the start-up grid (all healths 100) has the grid's shape, and every grid reached from it has all healths in [0, 100] |
| `RuleProperties.BlindTurn` | src/main.cpp:69-84 | with the neighbour off the grid or on the cell, no kind changes and only the cell's health changes: Predator max(h-1, 0), Prey min(h+5, 100), Empty unchanged |
| `RuleProperties.EmptyIdles` | src/main.cpp:71-72 | an Empty cell's turn changes nothing |
| `RuleProperties.Starvation` | src/main.cpp:112-116 | a Predator at health <= 1 facing a valid neighbour becomes Empty with health 0, and the neighbour is untouched |
| `RuleProperties.PredatorMoves` | src/main.cpp:88-123 | a fed Predator facing an Empty neighbour: the neighbour gets Predator with the decayed health, the cell becomes Empty with health 0 |
| `RuleProperties.PredatorsIgnoreEachOther` | src/main.cpp:125-126 | a fed Predator facing a Predator only decays |
| `RuleProperties.Predation` | src/main.cpp:128-133 | a fed Predator facing a Prey: the neighbour becomes Predator keeping its health, the cell's health becomes min(h-1 + prey/4, 100) |
| `RuleProperties.PreyReproduces` | src/main.cpp:138-166 | a Prey facing a valid neighbour stays Prey at health 10; an Empty neighbour becomes Prey at health 10; any other neighbour is untouched |
| `RuleProperties.NewlyEmptyHasNoHealth` | src/main.cpp:74-116 | a cell that a turn makes Empty (starvation or moving away) has health 0 afterwards |
| `RuleProperties.PredationScenario` | src/main.cpp:128-133 | on a 3x3 grid, Predator 40 at (1,1) against Prey 20 at (1,0) with offset (0,-1): (1,0) becomes Predator, (1,1) ends at 44 |
| `RuleProperties.StarvationNeedsNeighbour` | src/main.cpp:82-84 | a Predator at health 0 whose neighbour is off the grid stays a Predator |
| `RuleProperties.EmptyKeepsInitialHealth` | src/main.cpp:37 | an Empty cell still has health 100 after a frame: Empty does not imply health 0 |
| `RuleProperties.MovedPredatorActsTwice` | src/main.cpp:59-62 | a Predator that moves to a lower index takes a second turn in the same frame (50 -> 49 -> 48 on a 2x1 grid) |
| `RuleProperties.PaintedRowGrid` | src/main.cpp:172 | painting does not change the grid: a painted row sweep's grid is `RowFrom`'s |
| `RuleProperties.PaintedRowsGrid` | src/main.cpp:172 | painting does not change the grid: a painted sweep of rows has `RowsFrom`'s grid |
| `RuleProperties.PaintedRowStep` | src/main.cpp:172 | painting cell (x, y) changes only pixel (x, y), to the colour of that cell's kind right after its turn |
| `RuleProperties.PaintedRowPixel` | src/main.cpp:62-173 | once a row is painted down to x, each pixel x' >= x shows its cell as it was right after its own turn |
| `RuleProperties.PaintedRowKeepsOthers` | src/main.cpp:62-173 | painting a row touches no pixel outside the cells it steps |
| `RuleProperties.PaintedRowsPixel` | src/main.cpp:59-174 | once the rows are painted down to y, each pixel in those rows shows its cell as it was right after its own turn |
| `RuleProperties.PaintedRowsKeepOthers` | src/main.cpp:59-174 | painting the rows down to y leaves the pixels of the rows above as they were |
| `RuleProperties.PaintedPass` | src/main.cpp:59-174 | after a painted frame the grid is `Pass`'s, and every pixel (x, y) shows cell (x, y) as it was right after its own turn |
| `Simulation.Start` | src/main.cpp:36-46 | start-up creates fresh arrays that hold exactly `Initial(draws)`, with every pixel transparent |
| `Simulation.World.constructor` | src/main.cpp:31-37 | fresh arrays of columns*rows cells: all Empty, all healths 100, all pixels transparent |
| `Simulation.World.Populate` | src/main.cpp:40-46 | the row-by-row loop leaves kind `RandomCreature(draws[k])` in every cell k, and the healths are not touched |
| `Simulation.World.Move` | src/main.cpp:88-97 | the arrays become `Rules.Move` of the old grid: the target takes the cell's kind and health, the cell becomes Empty with health 0 |
| `Simulation.World.Interact` | src/main.cpp:106-169 | the arrays become `Rules.Interact` of the old grid |
| `Simulation.World.StepCell` | src/main.cpp:65-172 | the arrays become `Rules.Step` of the old grid; health bounds are kept; the pixel buffer becomes `Rules.Turn`'s image |
| `Simulation.World.StepRow` | src/main.cpp:62-173 | the descending-x inner loop leaves the scene `PaintedRowFrom` gives for the whole row |
| `Simulation.World.Pass` | src/main.cpp:59-174 | the arrays become `Rules.Pass` of the old grid; health bounds are kept; every pixel (x, y) holds the colour of cell (x, y) right after its own turn |

## Behaviour that differs from a natural reading

The model follows the code in each case below.

- Empty cells do not always have health 0. Every cell starts with health 100,
  Empty ones included, and an Empty cell never has its health written
  (`EmptyKeepsInitialHealth`). What does hold is that a cell made Empty
  during a turn has health 0 (`NewlyEmptyHasNoHealth`).
- A Predator at health 0 starves only when its neighbour is valid. With the
  neighbour off the grid or on itself it stays a Predator
  (`StarvationNeedsNeighbour`).
- The initial shares are 50, 45 and 6 of the 101 values in [0, 100]. That is
  about 49.5 %, 44.6 % and 5.9 %, not exactly 50 %, 45 % and 5 %
  (`DrawShares`).

## Left out

- Window creation, event handling, texture upload, drawing and frame-rate limiting: these are SFML I/O. The frame loop is modelled as a finite sequence of frames (`Run`).
- The `mt19937` generator and its uniform distributions. Draws and offsets are explicit inputs instead.
- The alpha channel of a cell's colour: it is computed in floating point and truncated through `uint8_t`. Pixels hold only the red, green and blue channels.
- The unused `heal` lambda.
- The `shouldReproduce` flag. It is the constant `true`, so reproduction is modelled as unconditional, and the dead `else move(...)` branch for Prey is left out.
- The grid size is a parameter instead of the fixed 400 × 400. This lets small grids, such as the 3 × 3 example, be stated.
- 32-bit `int` overflow is not modelled, because it cannot happen here. Every health stays in [0, 100] (proved), and no index exceeds 400 × 400.
- Claims about how the initial kinds are distributed by chance. Only the exact count of draws per kind is proved.
