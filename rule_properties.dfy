/** What one turn, one frame and any number of frames do to the grid. */
module RuleProperties {
  import opened Creatures
  import opened Rules

  /** A cell's turn keeps every health in [0, MaxHealth]. */
  lemma StepKeepsHealthy(g: Grid, columns: nat, rows: nat, x: int, y: int, o: Offset)
    requires Shaped(g, columns, rows) && InGrid(columns, rows, x, y)
    requires Healthy(g)
    ensures Healthy(Step(g, columns, rows, x, y, o))
  {
  }

  /** Every prefix of a row's sweep keeps every health in [0, MaxHealth]. */
  lemma {:induction false} RowKeepsHealthy(g: Grid, columns: nat, rows: nat, offsets: seq<Offset>, y: int, x: nat)
    requires Shaped(g, columns, rows) && |offsets| == columns * rows
    requires 0 <= y < rows && x <= columns
    requires Healthy(g)
    ensures Healthy(RowFrom(g, columns, rows, offsets, y, x))
    decreases columns - x
  {
    if x < columns {
      RowKeepsHealthy(g, columns, rows, offsets, y, x + 1);
      StepKeepsHealthy(RowFrom(g, columns, rows, offsets, y, x + 1), columns, rows, x, y,
                       offsets[Index(columns, rows, x, y)]);
    }
  }

  /** Every prefix of a frame, row by row, keeps every health in [0, MaxHealth]. */
  lemma {:induction false} RowsKeepHealthy(g: Grid, columns: nat, rows: nat, offsets: seq<Offset>, y: nat)
    requires Shaped(g, columns, rows) && |offsets| == columns * rows && y <= rows
    requires Healthy(g)
    ensures Healthy(RowsFrom(g, columns, rows, offsets, y))
    decreases rows - y
  {
    if y < rows {
      RowsKeepHealthy(g, columns, rows, offsets, y + 1);
      RowKeepsHealthy(RowsFrom(g, columns, rows, offsets, y + 1), columns, rows, offsets, y, 0);
    }
  }

  /** A whole frame keeps every health in [0, MaxHealth]. */
  lemma PassKeepsHealthy(g: Grid, columns: nat, rows: nat, offsets: seq<Offset>)
    requires Shaped(g, columns, rows) && |offsets| == columns * rows
    requires Healthy(g)
    ensures Healthy(Pass(g, columns, rows, offsets))
  {
    RowsKeepHealthy(g, columns, rows, offsets, 0);
  }

  /** Painting does not affect the grid: a painted row sweep's grid is RowFrom's. */
  lemma {:induction false} PaintedRowGrid(s: Scene, columns: nat, rows: nat, offsets: seq<Offset>, y: int, x: nat)
    requires SceneShaped(s, columns, rows) && |offsets| == columns * rows
    requires 0 <= y < rows && x <= columns
    ensures PaintedRowFrom(s, columns, rows, offsets, y, x).grid == RowFrom(s.grid, columns, rows, offsets, y, x)
    decreases columns - x
  {
    if x < columns {
      PaintedRowGrid(s, columns, rows, offsets, y, x + 1);
    }
  }

  /** Painting does not affect the grid: a painted sweep's grid is RowsFrom's. */
  lemma {:induction false} PaintedRowsGrid(s: Scene, columns: nat, rows: nat, offsets: seq<Offset>, y: nat)
    requires SceneShaped(s, columns, rows) && |offsets| == columns * rows && y <= rows
    ensures PaintedRowsFrom(s, columns, rows, offsets, y).grid == RowsFrom(s.grid, columns, rows, offsets, y)
    decreases rows - y
  {
    if y < rows {
      PaintedRowsGrid(s, columns, rows, offsets, y + 1);
      PaintedRowGrid(PaintedRowsFrom(s, columns, rows, offsets, y + 1), columns, rows, offsets, y, 0);
    }
  }

  /** Proof helper: unfolds one step of `PaintedRowFrom`, which keeps the
      proof of `World.StepRow` small. */
  lemma PaintedRowUnfold(s: Scene, columns: nat, rows: nat, offsets: seq<Offset>, y: int, x: nat)
    requires SceneShaped(s, columns, rows) && |offsets| == columns * rows
    requires 0 <= y < rows && x < columns
    ensures PaintedRowFrom(s, columns, rows, offsets, y, x)
              == Turn(PaintedRowFrom(s, columns, rows, offsets, y, x + 1), columns, rows, x, y,
                      offsets[Index(columns, rows, x, y)])
  {
  }

  /** Painting cell (x, y) of row y changes only its own pixel, to the colour
      of its kind right after its turn. */
  lemma PaintedRowStep(s: Scene, columns: nat, rows: nat, offsets: seq<Offset>, y: int, x: nat)
    requires SceneShaped(s, columns, rows) && |offsets| == columns * rows
    requires 0 <= y < rows && x < columns
    ensures var i := Index(columns, rows, x, y);
            PaintedRowFrom(s, columns, rows, offsets, y, x).image
              == PaintedRowFrom(s, columns, rows, offsets, y, x + 1).image
                   [i := Channels(RowFrom(s.grid, columns, rows, offsets, y, x).creatures[i])]
  {
    PaintedRowGrid(s, columns, rows, offsets, y, x + 1);
  }

  /** Once row y has been painted from the last column down to x, the pixel
      of a cell x' at or after x shows that cell right after its own turn. */
  lemma {:induction false} PaintedRowPixel(s: Scene, columns: nat, rows: nat, offsets: seq<Offset>, y: int, x: nat, x': nat)
    requires SceneShaped(s, columns, rows) && |offsets| == columns * rows
    requires 0 <= y < rows && x <= x' < columns
    ensures PaintedRowFrom(s, columns, rows, offsets, y, x).image[Index(columns, rows, x', y)]
              == Channels(RowFrom(s.grid, columns, rows, offsets, y, x').creatures[Index(columns, rows, x', y)])
    decreases x' - x
  {
    PaintedRowStep(s, columns, rows, offsets, y, x);
    if x < x' {
      PaintedRowPixel(s, columns, rows, offsets, y, x + 1, x');
      assert Index(columns, rows, x', y) != Index(columns, rows, x, y);
    }
  }

  /** Painting row y from the last column down to x leaves every pixel
      outside the linear indices [y * columns + x, y * columns + columns) as
      it was. */
  lemma {:induction false} PaintedRowKeepsOthers(s: Scene, columns: nat, rows: nat, offsets: seq<Offset>, y: int, x: nat)
    requires SceneShaped(s, columns, rows) && |offsets| == columns * rows
    requires 0 <= y < rows && x <= columns
    ensures var p := PaintedRowFrom(s, columns, rows, offsets, y, x);
            forall k :: 0 <= k < columns * rows && (k < y * columns + x || y * columns + columns <= k) ==>
              p.image[k] == s.image[k]
    decreases columns - x
  {
    if x < columns {
      PaintedRowKeepsOthers(s, columns, rows, offsets, y, x + 1);
      PaintedRowStep(s, columns, rows, offsets, y, x);
    }
  }

  /** Once rows rows - 1 down to y have been painted, the pixel of a cell
      (x', y') in those rows shows that cell right after its own turn. */
  lemma {:induction false} PaintedRowsPixel(s: Scene, columns: nat, rows: nat, offsets: seq<Offset>, y: nat, x': nat, y': nat)
    requires SceneShaped(s, columns, rows) && |offsets| == columns * rows
    requires y <= y' < rows && x' < columns
    ensures PaintedRowsFrom(s, columns, rows, offsets, y).image[Index(columns, rows, x', y')]
              == Channels(AfterTurn(s.grid, columns, rows, offsets, x', y').creatures[Index(columns, rows, x', y')])
    decreases y' - y
  {
    var prev := PaintedRowsFrom(s, columns, rows, offsets, y + 1);
    if y == y' {
      PaintedRowsGrid(s, columns, rows, offsets, y + 1);
      PaintedRowPixel(prev, columns, rows, offsets, y, 0, x');
    } else {
      PaintedRowsPixel(s, columns, rows, offsets, y + 1, x', y');
      PaintedRowKeepsOthers(prev, columns, rows, offsets, y, 0);
      RowBounds(columns, rows, y);
      MulMonotone(y + 1, y', columns);
    }
  }

  /** Painting rows rows - 1 down to y leaves the pixels of the rows above
      them as they were. */
  lemma {:induction false} PaintedRowsKeepOthers(s: Scene, columns: nat, rows: nat, offsets: seq<Offset>, y: nat)
    requires SceneShaped(s, columns, rows) && |offsets| == columns * rows && y <= rows
    ensures var p := PaintedRowsFrom(s, columns, rows, offsets, y);
            forall k :: 0 <= k < y * columns ==> p.image[k] == s.image[k]
    decreases rows - y
  {
    if y < rows {
      var prev := PaintedRowsFrom(s, columns, rows, offsets, y + 1);
      PaintedRowsKeepOthers(s, columns, rows, offsets, y + 1);
      PaintedRowKeepsOthers(prev, columns, rows, offsets, y, 0);
      RowBounds(columns, rows, y);
    }
  }

  /** After the whole painted pass, the grid is the pass's and every pixel of
      cell (x, y) shows that cell right after its own turn. */
  lemma PaintedPass(s: Scene, columns: nat, rows: nat, offsets: seq<Offset>)
    requires SceneShaped(s, columns, rows) && |offsets| == columns * rows
    ensures PaintedRowsFrom(s, columns, rows, offsets, 0).grid == Pass(s.grid, columns, rows, offsets)
    ensures forall x, y :: InGrid(columns, rows, x, y) ==>
              PaintedRowsFrom(s, columns, rows, offsets, 0).image[Index(columns, rows, x, y)]
                == Channels(AfterTurn(s.grid, columns, rows, offsets, x, y).creatures[Index(columns, rows, x, y)])
  {
    PaintedRowsGrid(s, columns, rows, offsets, 0);
    forall x, y | InGrid(columns, rows, x, y)
      ensures PaintedRowsFrom(s, columns, rows, offsets, 0).image[Index(columns, rows, x, y)]
                == Channels(AfterTurn(s.grid, columns, rows, offsets, x, y).creatures[Index(columns, rows, x, y)])
    {
      PaintedRowsPixel(s, columns, rows, offsets, 0, x, y);
    }
  }

  /** Any number of frames keep every health in [0, MaxHealth]. */
  lemma {:induction false} RunKeepsHealthy(g: Grid, columns: nat, rows: nat, frames: seq<seq<Offset>>)
    requires Shaped(g, columns, rows) && Frames(columns, rows, frames)
    requires Healthy(g)
    ensures Healthy(Run(g, columns, rows, frames))
    decreases |frames|
  {
    if frames != [] {
      PassKeepsHealthy(g, columns, rows, frames[0]);
      RunKeepsHealthy(Pass(g, columns, rows, frames[0]), columns, rows, frames[1..]);
    }
  }

  /** The start-up grid is healthy, and so is every grid reached from it. */
  lemma InitialRunsHealthy(draws: seq<Draw>, columns: nat, rows: nat, frames: seq<seq<Offset>>)
    requires |draws| == columns * rows && Frames(columns, rows, frames)
    ensures Shaped(Initial(draws), columns, rows)
    ensures Healthy(Run(Initial(draws), columns, rows, frames))
  {
    RunKeepsHealthy(Initial(draws), columns, rows, frames);
  }

  /** Decay never lets a Predator gain or a Prey lose, leaves an Empty cell
      alone, and keeps a health in [0, MaxHealth] there. */
  lemma DecayBounds(c: Creature, h: int)
    ensures var d := Decay(c, h);
            && (0 <= h <= MaxHealth ==> 0 <= d <= MaxHealth)
            && (c == Empty ==> d == h)
            && (c == Predator ==> 0 <= d && (d <= h || h <= 0))
            && (c == Prey ==> d <= MaxHealth && (h <= d || MaxHealth < h))
  {
  }

  /** The neighbours the offsets can pick are exactly the cells of the 3x3
      block around (x, y). */
  lemma NeighborhoodExact(x: int, y: int, nx: int, ny: int)
    ensures (exists o: Offset :: NeighborCoordinates(x, y, o) == (nx, ny))
              <==> -1 <= nx - x <= 1 && -1 <= ny - y <= 1
  {
    if -1 <= nx - x <= 1 && -1 <= ny - y <= 1 {
      var o := Offset(nx - x, ny - y);
      assert NeighborCoordinates(x, y, o) == (nx, ny);
    }
  }

  /** Only the zero offset picks the cell itself. */
  lemma SelfOnlyAtZeroOffset(x: int, y: int, o: Offset)
    ensures NeighborCoordinates(x, y, o) == (x, y) <==> o == Offset(0, 0)
  {
  }

  /** For an in-grid cell, the neighbour is seen exactly when it is another
      in-grid cell, and then its linear index differs from the cell's. */
  lemma SeesOtherCell(columns: nat, rows: nat, x: int, y: int, nx: int, ny: int)
    requires InGrid(columns, rows, x, y)
    ensures Sees(columns, rows, x, y, nx, ny) <==> InGrid(columns, rows, nx, ny) && (nx, ny) != (x, y)
    ensures Sees(columns, rows, x, y, nx, ny) ==>
              Index(columns, rows, nx, ny) != Index(columns, rows, x, y)
  {
    if Sees(columns, rows, x, y, nx, ny) {
      LinearIndex(columns, rows, x, y);
      LinearIndex(columns, rows, nx, ny);
    }
  }

  /** `move` empties the cell (health 0), gives the target the cell's kind
      and health, and changes nothing else. */
  lemma MoveEffect(g: Grid, cell: nat, target: nat)
    requires cell < |g.creatures| && cell < |g.healths|
    requires target < |g.creatures| && target < |g.healths|
    ensures var r := Rules.Move(g, cell, target);
            && |r.creatures| == |g.creatures| && |r.healths| == |g.healths|
            && r.creatures[cell] == Empty && r.healths[cell] == 0
            && (cell != target ==> r.creatures[target] == g.creatures[cell] && r.healths[target] == g.healths[cell])
            && (forall k :: 0 <= k < |r.creatures| && k != cell && k != target ==> r.creatures[k] == g.creatures[k])
            && (forall k :: 0 <= k < |r.healths| && k != cell && k != target ==> r.healths[k] == g.healths[k])
  {
  }

  /** The interaction changes at most the acting cell and its neighbour, and
      keeps every health in [0, MaxHealth]. */
  lemma InteractFrame(g: Grid, i: nat, j: nat)
    requires i < |g.creatures| && i < |g.healths|
    requires j < |g.creatures| && j < |g.healths|
    ensures var r := Rules.Interact(g, i, j);
            && |r.creatures| == |g.creatures| && |r.healths| == |g.healths|
            && (forall k :: 0 <= k < |r.creatures| && k != i && k != j ==> r.creatures[k] == g.creatures[k])
            && (forall k :: 0 <= k < |r.healths| && k != i && k != j ==> r.healths[k] == g.healths[k])
            && (Healthy(g) ==> Healthy(r))
  {
  }

  /** With the neighbour outside the grid or on the cell itself, only decay
      or regen happens: a Predator loses one health (never below 0), a Prey
      gains five (never above MaxHealth), an Empty cell is unchanged, and no
      kind changes, not even that of a Predator at health 0. */
  lemma BlindTurn(g: Grid, columns: nat, rows: nat, x: int, y: int, o: Offset)
    requires Shaped(g, columns, rows) && InGrid(columns, rows, x, y)
    requires !Sees(columns, rows, x, y, x + o.dx, y + o.dy)
    ensures var i := Index(columns, rows, x, y);
            var h := g.healths[i];
            var r := Step(g, columns, rows, x, y, o);
            && r.creatures == g.creatures
            && r.healths == g.healths[i := r.healths[i]]
            && (g.creatures[i] == Predator ==> r.healths[i] == if h - 1 < 0 then 0 else h - 1)
            && (g.creatures[i] == Prey ==> r.healths[i] == if h + 5 > MaxHealth then MaxHealth else h + 5)
            && (g.creatures[i] == Empty ==> r.healths[i] == h)
  {
  }

  /** An Empty cell never acts: its turn changes nothing. */
  lemma EmptyIdles(g: Grid, columns: nat, rows: nat, x: int, y: int, o: Offset)
    requires Shaped(g, columns, rows) && InGrid(columns, rows, x, y)
    requires g.creatures[Index(columns, rows, x, y)] == Empty
    ensures Step(g, columns, rows, x, y, o) == g
  {
  }

  /** A Predator whose decayed health is 0, facing a valid neighbour, starves:
      it becomes Empty (health 0) and the neighbour is untouched. */
  lemma Starvation(g: Grid, columns: nat, rows: nat, x: int, y: int, o: Offset)
    requires Shaped(g, columns, rows) && InGrid(columns, rows, x, y)
    requires Sees(columns, rows, x, y, x + o.dx, y + o.dy)
    requires g.creatures[Index(columns, rows, x, y)] == Predator
    requires g.healths[Index(columns, rows, x, y)] <= 1
    ensures var i := Index(columns, rows, x, y);
            var r := Step(g, columns, rows, x, y, o);
            r.creatures == g.creatures[i := Empty] && r.healths == g.healths[i := 0]
  {
  }

  /** A fed Predator facing an Empty neighbour moves there with its decayed
      health; its old cell becomes Empty with health 0. */
  lemma PredatorMoves(g: Grid, columns: nat, rows: nat, x: int, y: int, o: Offset)
    requires Shaped(g, columns, rows) && InGrid(columns, rows, x, y)
    requires Sees(columns, rows, x, y, x + o.dx, y + o.dy)
    requires g.creatures[Index(columns, rows, x, y)] == Predator
    requires g.healths[Index(columns, rows, x, y)] > 1
    requires g.creatures[Index(columns, rows, x + o.dx, y + o.dy)] == Empty
    ensures var i := Index(columns, rows, x, y);
            var j := Index(columns, rows, x + o.dx, y + o.dy);
            var r := Step(g, columns, rows, x, y, o);
            && r.creatures == g.creatures[j := Predator][i := Empty]
            && r.healths == g.healths[j := g.healths[i] - 1][i := 0]
  {
  }

  /** Two Predators ignore each other: only the acting one's decay happens. */
  lemma PredatorsIgnoreEachOther(g: Grid, columns: nat, rows: nat, x: int, y: int, o: Offset)
    requires Shaped(g, columns, rows) && InGrid(columns, rows, x, y)
    requires Sees(columns, rows, x, y, x + o.dx, y + o.dy)
    requires g.creatures[Index(columns, rows, x, y)] == Predator
    requires g.healths[Index(columns, rows, x, y)] > 1
    requires g.creatures[Index(columns, rows, x + o.dx, y + o.dy)] == Predator
    ensures var i := Index(columns, rows, x, y);
            var r := Step(g, columns, rows, x, y, o);
            r.creatures == g.creatures && r.healths == g.healths[i := g.healths[i] - 1]
  {
  }

  /** A fed Predator facing a Prey converts it: the neighbour becomes a
      Predator keeping its own health, and the acting Predator gains a
      quarter (rounded toward zero) of that health on top of its decayed
      health, capped at MaxHealth. */
  lemma Predation(g: Grid, columns: nat, rows: nat, x: int, y: int, o: Offset)
    requires Shaped(g, columns, rows) && InGrid(columns, rows, x, y)
    requires Sees(columns, rows, x, y, x + o.dx, y + o.dy)
    requires g.creatures[Index(columns, rows, x, y)] == Predator
    requires g.healths[Index(columns, rows, x, y)] > 1
    requires g.creatures[Index(columns, rows, x + o.dx, y + o.dy)] == Prey
    ensures var i := Index(columns, rows, x, y);
            var j := Index(columns, rows, x + o.dx, y + o.dy);
            var r := Step(g, columns, rows, x, y, o);
            var gained := g.healths[i] - 1 + TruncDiv(g.healths[j], 4);
            && r.creatures == g.creatures[j := Predator]
            && r.healths == g.healths[i := if gained > MaxHealth then MaxHealth else gained]
  {
  }

  /** A Prey facing a valid neighbour resets its own health to 10 and stays
      Prey; an Empty neighbour becomes a Prey with health 10, any other
      neighbour is untouched. */
  lemma PreyReproduces(g: Grid, columns: nat, rows: nat, x: int, y: int, o: Offset)
    requires Shaped(g, columns, rows) && InGrid(columns, rows, x, y)
    requires Sees(columns, rows, x, y, x + o.dx, y + o.dy)
    requires g.creatures[Index(columns, rows, x, y)] == Prey
    ensures var i := Index(columns, rows, x, y);
            var j := Index(columns, rows, x + o.dx, y + o.dy);
            var r := Step(g, columns, rows, x, y, o);
            && r.creatures[i] == Prey && r.healths[i] == 10
            && (g.creatures[j] == Empty ==>
                  r.creatures == g.creatures[j := Prey] && r.healths == g.healths[i := 10][j := 10])
            && (g.creatures[j] != Empty ==>
                  r.creatures == g.creatures && r.healths == g.healths[i := 10])
  {
  }

  /** A cell that a turn turns into Empty has health 0 afterwards. */
  lemma NewlyEmptyHasNoHealth(g: Grid, columns: nat, rows: nat, x: int, y: int, o: Offset, k: nat)
    requires Shaped(g, columns, rows) && InGrid(columns, rows, x, y)
    requires k < columns * rows && g.creatures[k] != Empty
    requires Step(g, columns, rows, x, y, o).creatures[k] == Empty
    ensures Step(g, columns, rows, x, y, o).healths[k] == 0
  {
  }

  /** On a 3x3 grid, a Predator at (1, 1) with health 40 looking at a Prey
      with health 20 at (1, 0) converts it and ends with 39 + 20/4 = 44. */
  lemma PredationScenario(g: Grid)
    requires Shaped(g, 3, 3)
    requires g.creatures[4] == Predator && g.healths[4] == 40
    requires g.creatures[1] == Prey && g.healths[1] == 20
    ensures var r := Step(g, 3, 3, 1, 1, Offset(0, -1));
            r.creatures[1] == Predator && r.healths[1] == 20 && r.healths[4] == 44
  {
  }

  /** A Predator at health 0 whose neighbour is off the grid is not made
      Empty: starvation needs a valid neighbour. */
  lemma StarvationNeedsNeighbour()
    ensures var g := Grid([Predator], [0]);
            Step(g, 1, 1, 0, 0, Offset(1, 0)) == g
  {
  }

  /** An Empty cell keeps the health it was created with: after a frame, a
      1x1 grid that started Empty still holds health MaxHealth there. */
  lemma EmptyKeepsInitialHealth(o: Offset)
    ensures var r := Pass(Initial([100]), 1, 1, [o]);
            r.creatures[0] == Empty && r.healths[0] == MaxHealth
  {
  }

  /** A Predator that moves to a lower index is processed a second time in
      the same frame: on a 2x1 grid it moves from (1, 0) to (0, 0) with
      health 49 and then decays again to 48. */
  lemma MovedPredatorActsTwice()
    ensures var r := Pass(Grid([Empty, Predator], [0, 50]), 2, 1, [Offset(0, 0), Offset(-1, 0)]);
            r == Grid([Predator, Empty], [48, 0])
  {
    var g := Grid([Empty, Predator], [0, 50]);
    var offsets := [Offset(0, 0), Offset(-1, 0)];
    var moved := Step(g, 2, 1, 1, 0, Offset(-1, 0));
    assert moved == Grid([Predator, Empty], [49, 0]);
    assert RowFrom(g, 2, 1, offsets, 0, 1) == moved;
    assert Step(moved, 2, 1, 0, 0, Offset(0, 0)) == Grid([Predator, Empty], [48, 0]);
  }
}
