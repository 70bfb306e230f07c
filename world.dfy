/** The simulation's mutable state: the two parallel cell arrays and the
    pixel buffer the frame is painted into, updated in place cell by cell. */
module Simulation {
  import opened Creatures
  import opened Rules
  import RuleProperties

  /** Start-up: the grid is created with every cell Empty at health
      MaxHealth, then every cell gets its kind from its draw. */
  method Start(columns: nat, rows: nat, draws: seq<Draw>) returns (w: World)
    requires |draws| == columns * rows
    ensures fresh(w) && w.Valid() && w.columns == columns && w.rows == rows
    ensures fresh(w.creatures) && fresh(w.healths) && fresh(w.pixels)
    ensures w.State() == Initial(draws)
    ensures w.pixels[..] == seq(columns * rows, k => Channels(Empty))
  {
    w := new World(columns, rows);
    w.Populate(draws);
  }

  class World {
    const columns: nat
    const rows: nat
    const creatures: array<Creature>
    const healths: array<int>
    /** The colour channels written for each cell (alpha is not modelled). */
    const pixels: array<Rgb>

    ghost predicate Valid()
      reads this
    {
      && creatures.Length == columns * rows
      && healths.Length == columns * rows
      && pixels.Length == columns * rows
    }

    /** The grid the arrays hold. */
    ghost function State(): (g: Grid)
      reads this, creatures, healths
      requires Valid()
      ensures Shaped(g, columns, rows)
    {
      Grid(creatures[..], healths[..])
    }

    /** The scene the arrays hold: the grid and the painted image. */
    ghost function Picture(): (s: Scene)
      reads this, creatures, healths, pixels
      requires Valid()
      ensures SceneShaped(s, columns, rows)
    {
      Scene(State(), pixels[..])
    }

    /** Every cell Empty with health MaxHealth, every pixel transparent. */
    constructor (columns: nat, rows: nat)
      ensures Valid() && this.columns == columns && this.rows == rows
      ensures fresh(creatures) && fresh(healths) && fresh(pixels)
      ensures State() == Grid(seq(columns * rows, k => Empty), seq(columns * rows, k => MaxHealth))
      ensures pixels[..] == seq(columns * rows, k => Channels(Empty))
    {
      this.columns := columns;
      this.rows := rows;
      creatures := new Creature[columns * rows](k => Empty);
      healths := new int[columns * rows](k => MaxHealth);
      pixels := new Rgb[columns * rows](k => Channels(Empty));
    }

    /** Fills every cell's kind from its draw, row by row; healths stay. */
    method Populate(draws: seq<Draw>)
      requires Valid() && |draws| == columns * rows
      modifies creatures
      ensures creatures[..] == Initial(draws).creatures
    {
      var y := 0;
      ghost var done := 0;
      while y < rows
        invariant 0 <= y <= rows
        invariant done == y * columns <= columns * rows
        invariant forall k :: 0 <= k < done ==> creatures[k] == RandomCreature(draws[k])
      {
        RowBounds(columns, rows, y);
        var x := 0;
        while x < columns
          invariant 0 <= x <= columns
          invariant done + x <= columns * rows
          invariant forall k :: 0 <= k < done + x ==> creatures[k] == RandomCreature(draws[k])
        {
          var index := Index(columns, rows, x, y);
          assert index == done + x;
          creatures[index] := RandomCreature(draws[index]);
          x := x + 1;
        }
        y := y + 1;
        done := done + columns;
      }
      assert done == columns * rows;
      assert creatures[..] == Initial(draws).creatures;
    }

    /** The `move` helper on the arrays. */
    method Move(cellX: int, cellY: int, targetX: int, targetY: int)
      requires Valid()
      requires InGrid(columns, rows, cellX, cellY) && InGrid(columns, rows, targetX, targetY)
      modifies creatures, healths
      ensures State() == Rules.Move(old(State()), Index(columns, rows, cellX, cellY), Index(columns, rows, targetX, targetY))
    {
      var cellIndex := Index(columns, rows, cellX, cellY);
      var targetIndex := Index(columns, rows, targetX, targetY);
      creatures[targetIndex] := creatures[cellIndex];
      healths[targetIndex] := healths[cellIndex];
      creatures[cellIndex] := Empty;
      healths[cellIndex] := 0;
    }

    /** The interaction of the (already decayed) cell (x, y) with its
        in-grid neighbour (neighborX, neighborY), by the pair of kinds. */
    method Interact(x: int, y: int, neighborX: int, neighborY: int)
      requires Valid()
      requires InGrid(columns, rows, x, y) && InGrid(columns, rows, neighborX, neighborY)
      modifies creatures, healths
      ensures State() == Rules.Interact(old(State()), Index(columns, rows, x, y), Index(columns, rows, neighborX, neighborY))
    {
      var index := Index(columns, rows, x, y);
      var target := Index(columns, rows, neighborX, neighborY);
      var neighbor := creatures[target];
      match creatures[index] {
        case Empty =>
        case Predator =>
          if healths[index] <= 0 {
            creatures[index] := Empty;
          } else {
            match neighbor {
              case Empty =>
                Move(x, y, neighborX, neighborY);
              case Predator =>
              case Prey =>
                creatures[target] := Predator;
                healths[index] := Min(healths[index] + TruncDiv(healths[target], 4), MaxHealth);
            }
          }
        case Prey =>
          healths[index] := 10;
          match neighbor {
            case Empty =>
              creatures[target] := Prey;
              healths[target] := 10;
            case Predator =>
            case Prey =>
          }
      }
    }

    /** The turn of cell (x, y) with neighbour offset `o`, then the write of
        its colour. */
    method StepCell(x: int, y: int, o: Offset)
      requires Valid() && InGrid(columns, rows, x, y)
      modifies creatures, healths, pixels
      ensures State() == Step(old(State()), columns, rows, x, y, o)
      ensures Healthy(old(State())) ==> Healthy(State())
      ensures Picture() == Turn(old(Picture()), columns, rows, x, y, o)
    {
      ghost var g := State();
      ghost var before := Picture();
      var index := Index(columns, rows, x, y);
      match creatures[index] {
        case Empty =>
        case Predator =>
          healths[index] := Max(healths[index] - 1, 0);
        case Prey =>
          healths[index] := Min(healths[index] + 5, MaxHealth);
      }
      assert State() == Grid(g.creatures, g.healths[index := Decay(g.creatures[index], g.healths[index])]);

      var (neighborX, neighborY) := NeighborCoordinates(x, y, o);
      var isOutOfSight := neighborX < 0 || neighborX >= columns || neighborY < 0 || neighborY >= rows;
      var isSameCreature := neighborX == x && neighborY == y;
      if !isOutOfSight && !isSameCreature {
        Interact(x, y, neighborX, neighborY);
      }
      ghost var stepped := State();
      assert stepped == Step(g, columns, rows, x, y, o);
      ghost var cs, hs := creatures[..], healths[..];
      pixels[index] := Channels(creatures[index]);
      assert creatures[..] == cs && healths[..] == hs;
      assert pixels[..] == before.image[index := Channels(stepped.creatures[index])];
      if Healthy(g) {
        RuleProperties.StepKeepsHealthy(g, columns, rows, x, y, o);
      }
    }

    /** The cells of row y, from the last column to the first. The ghost
        `start` names the scene on entry (it equals `old(Picture())`); naming
        it this way keeps the proof of the loop small. */
    method StepRow(y: int, offsets: seq<Offset>, ghost start: Scene)
      requires Valid() && |offsets| == columns * rows && 0 <= y < rows
      requires Picture() == start
      modifies creatures, healths, pixels
      ensures Picture() == PaintedRowFrom(start, columns, rows, offsets, y, 0)
    {
      var x := columns - 1;
      while x >= 0
        invariant -1 <= x < columns
        invariant Picture() == PaintedRowFrom(start, columns, rows, offsets, y, x + 1)
      {
        var index := Index(columns, rows, x, y);
        RuleProperties.PaintedRowUnfold(start, columns, rows, offsets, y, x);
        StepCell(x, y, offsets[index]);
        x := x - 1;
      }
      assert x + 1 == 0;
    }

    /** One frame: every cell takes its turn, rows from last to first and,
        within a row, columns from last to first; cell (x, y) uses the offset
        at its linear index. Each pixel holds the colour of its cell as it
        was right after that cell's own turn. */
    method Pass(offsets: seq<Offset>)
      requires Valid() && |offsets| == columns * rows
      modifies creatures, healths, pixels
      ensures State() == Rules.Pass(old(State()), columns, rows, offsets)
      ensures Healthy(old(State())) ==> Healthy(State())
      ensures forall x, y :: InGrid(columns, rows, x, y) ==>
                pixels[Index(columns, rows, x, y)]
                  == Channels(AfterTurn(old(State()), columns, rows, offsets, x, y).creatures[Index(columns, rows, x, y)])
    {
      ghost var s := Picture();
      var y := rows - 1;
      while y >= 0
        invariant -1 <= y < rows
        invariant Picture() == PaintedRowsFrom(s, columns, rows, offsets, y + 1)
      {
        StepRow(y, offsets, Picture());
        y := y - 1;
      }
      assert y + 1 == 0;
      RuleProperties.PaintedPass(s, columns, rows, offsets);
      if Healthy(s.grid) {
        RuleProperties.PassKeepsHealthy(s.grid, columns, rows, offsets);
      }
    }
  }
}
