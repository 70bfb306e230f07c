/** The per-frame update rule as pure functions over the grid's two parallel
    sequences. Cell (x, y) of a grid with `columns` columns lives at linear
    index y * columns + x. */
module Rules {
  import opened Creatures

  /** The contents of the grid: a kind and a health per cell. */
  datatype Grid = Grid(creatures: seq<Creature>, healths: seq<int>)

  /** One component of a neighbour offset. */
  type Delta = d: int | -1 <= d <= 1

  /** The offset from a cell to the neighbour it looks at this frame. */
  datatype Offset = Offset(dx: Delta, dy: Delta)

  /** Both sequences hold exactly one entry per cell. */
  predicate Shaped(g: Grid, columns: nat, rows: nat)
  {
    |g.creatures| == columns * rows && |g.healths| == columns * rows
  }

  /** Every health lies in [0, MaxHealth]. */
  predicate Healthy(g: Grid)
  {
    forall k :: 0 <= k < |g.healths| ==> 0 <= g.healths[k] <= MaxHealth
  }

  predicate InGrid(columns: nat, rows: nat, x: int, y: int)
  {
    0 <= x < columns && 0 <= y < rows
  }

  /** The linear index of an in-grid cell, which is a valid index. */
  function Index(columns: nat, rows: nat, x: int, y: int): (i: nat)
    requires InGrid(columns, rows, x, y)
    ensures i < columns * rows
  {
    LinearIndex(columns, rows, x, y);
    y * columns + x
  }

  /** The linear index of a cell, and the cell's coordinates recovered from it. */
  lemma LinearIndex(columns: nat, rows: nat, x: int, y: int)
    requires InGrid(columns, rows, x, y)
    ensures 0 <= y * columns + x < columns * rows
    ensures (y * columns + x) % columns == x && (y * columns + x) / columns == y
  {
    var i := y * columns + x;
    assert i < (y + 1) * columns;
    MulMonotone(y + 1, rows, columns);
    var q, r := i / columns, i % columns;
    assert q * columns + r == i;
    assert (q - y) * columns == x - r;
    if q > y {
      MulMonotone(1, q - y, columns);
    } else if q < y {
      MulMonotone(1, y - q, columns);
    }
  }

  /** Row y occupies the linear indices [y * columns, y * columns + columns),
      and the next row starts right after it. */
  lemma RowBounds(columns: nat, rows: nat, y: nat)
    requires y < rows
    ensures 0 <= y * columns && (y + 1) * columns == y * columns + columns
    ensures y * columns + columns <= columns * rows
  {
    MulMonotone(y + 1, rows, columns);
  }

  lemma MulMonotone(a: int, b: int, c: nat)
    requires a <= b
    ensures a * c <= b * c
  {
  }

  function Max(a: int, b: int): (m: int)
  {
    if a < b then b else a
  }

  function Min(a: int, b: int): (m: int)
  {
    if a < b then a else b
  }

  /** Integer division rounding toward zero, as C++'s `/` does: the
      remainder a - q * b has the sign of `a` and is smaller than `b` in
      magnitude. */
  function TruncDiv(a: int, b: int): (q: int)
    requires 0 < b
    ensures 0 <= a ==> 0 <= a - q * b < b
    ensures a < 0 ==> -b < a - q * b <= 0
  {
    if 0 <= a then a / b else -((-a) / b)
  }

  /** The health a cell has after the decay/regen step of its turn. */
  function Decay(c: Creature, h: int): (d: int)
  {
    match c
    case Empty => h
    case Predator => Max(h - 1, 0)
    case Prey => Min(h + 5, MaxHealth)
  }

  /** The neighbour coordinates a cell looks at. */
  function NeighborCoordinates(x: int, y: int, o: Offset): (n: (int, int))
  {
    (x + o.dx, y + o.dy)
  }

  /** The neighbour is inside the grid and is not the cell itself. */
  predicate Sees(columns: nat, rows: nat, x: int, y: int, nx: int, ny: int)
  {
    var outOfSight := nx < 0 || nx >= columns || ny < 0 || ny >= rows;
    var sameCreature := nx == x && ny == y;
    !outOfSight && !sameCreature
  }

  /** The `move` helper: the target takes the cell's kind and health, the
      cell becomes Empty with health 0. */
  function Move(g: Grid, cell: nat, target: nat): (r: Grid)
    requires cell < |g.creatures| && cell < |g.healths|
    requires target < |g.creatures| && target < |g.healths|
  {
    Grid(g.creatures[target := g.creatures[cell]][cell := Empty],
         g.healths[target := g.healths[cell]][cell := 0])
  }

  /** The interaction between cell `i` (after its decay) and its neighbour `j`. */
  function Interact(g: Grid, i: nat, j: nat): (r: Grid)
    requires i < |g.creatures| && i < |g.healths|
    requires j < |g.creatures| && j < |g.healths|
  {
    match g.creatures[i]
    case Empty => g
    case Predator =>
      if g.healths[i] <= 0 then
        // starvation
        Grid(g.creatures[i := Empty], g.healths)
      else
        (match g.creatures[j]
         case Empty => Move(g, i, j)
         case Predator => g
         case Prey =>
           // predation
           Grid(g.creatures[j := Predator],
                g.healths[i := Min(g.healths[i] + TruncDiv(g.healths[j], 4), MaxHealth)]))
    case Prey =>
      // reproduction: unconditional, the acting prey's health is reset first
      var healths := g.healths[i := 10];
      match g.creatures[j]
      case Empty => Grid(g.creatures[j := Prey], healths[j := 10])
      case _ => Grid(g.creatures, healths)
  }

  /** One cell's turn: decay/regen, then the interaction with the neighbour
      at offset `o` when that neighbour is in the grid and is not the cell.
      Only the cell and that neighbour can change. */
  function Step(g: Grid, columns: nat, rows: nat, x: int, y: int, o: Offset): (r: Grid)
    requires Shaped(g, columns, rows) && InGrid(columns, rows, x, y)
    ensures Shaped(r, columns, rows)
    ensures var (nx, ny) := NeighborCoordinates(x, y, o);
            forall k :: 0 <= k < columns * rows && k != y * columns + x &&
                        (!Sees(columns, rows, x, y, nx, ny) || k != ny * columns + nx) ==>
                          r.creatures[k] == g.creatures[k] && r.healths[k] == g.healths[k]
  {
    var i := Index(columns, rows, x, y);
    var decayed := Grid(g.creatures, g.healths[i := Decay(g.creatures[i], g.healths[i])]);
    var (nx, ny) := NeighborCoordinates(x, y, o);
    if Sees(columns, rows, x, y, nx, ny) then
      Interact(decayed, i, Index(columns, rows, nx, ny))
    else
      decayed
  }

  /** The grid after the cells of row y, from the last column down to
      column x, have taken their turns in g; cell (x, y) uses the offset at
      its linear index. This is the inner loop of a frame. */
  function RowFrom(g: Grid, columns: nat, rows: nat, offsets: seq<Offset>, y: int, x: nat): (r: Grid)
    requires Shaped(g, columns, rows) && |offsets| == columns * rows
    requires 0 <= y < rows && x <= columns
    ensures Shaped(r, columns, rows)
    decreases columns - x
  {
    if x == columns then g
    else Step(RowFrom(g, columns, rows, offsets, y, x + 1), columns, rows, x, y,
              offsets[Index(columns, rows, x, y)])
  }

  /** The grid after rows rows - 1 down to y have been swept, each row from
      its last column to its first. This is the outer loop of a frame. */
  function RowsFrom(g: Grid, columns: nat, rows: nat, offsets: seq<Offset>, y: nat): (r: Grid)
    requires Shaped(g, columns, rows) && |offsets| == columns * rows && y <= rows
    ensures Shaped(r, columns, rows)
    decreases rows - y
  {
    if y == rows then g
    else RowFrom(RowsFrom(g, columns, rows, offsets, y + 1), columns, rows, offsets, y, 0)
  }

  /** One whole frame: every cell takes its turn once, rows from last to
      first and, within a row, columns from last to first. */
  function Pass(g: Grid, columns: nat, rows: nat, offsets: seq<Offset>): (r: Grid)
    requires Shaped(g, columns, rows) && |offsets| == columns * rows
    ensures Shaped(r, columns, rows)
  {
    RowsFrom(g, columns, rows, offsets, 0)
  }

  /** The grid of a frame over g right after cell (x, y)'s own turn. */
  function AfterTurn(g: Grid, columns: nat, rows: nat, offsets: seq<Offset>, x: int, y: int): (r: Grid)
    requires Shaped(g, columns, rows) && |offsets| == columns * rows && InGrid(columns, rows, x, y)
    ensures Shaped(r, columns, rows)
  {
    RowFrom(RowsFrom(g, columns, rows, offsets, y + 1), columns, rows, offsets, y, x)
  }

  /** The grid together with the image its cells are painted into. */
  datatype Scene = Scene(grid: Grid, image: seq<Rgb>)

  predicate SceneShaped(s: Scene, columns: nat, rows: nat)
  {
    Shaped(s.grid, columns, rows) && |s.image| == columns * rows
  }

  /** A cell's turn followed by painting that cell with its kind's colour. */
  function Turn(s: Scene, columns: nat, rows: nat, x: int, y: int, o: Offset): (r: Scene)
    requires SceneShaped(s, columns, rows) && InGrid(columns, rows, x, y)
    ensures SceneShaped(r, columns, rows)
  {
    var grid := Step(s.grid, columns, rows, x, y, o);
    var i := Index(columns, rows, x, y);
    Scene(grid, s.image[i := Channels(grid.creatures[i])])
  }

  /** Like RowFrom, with every stepped cell painted right after its turn. */
  function PaintedRowFrom(s: Scene, columns: nat, rows: nat, offsets: seq<Offset>, y: int, x: nat): (r: Scene)
    requires SceneShaped(s, columns, rows) && |offsets| == columns * rows
    requires 0 <= y < rows && x <= columns
    ensures SceneShaped(r, columns, rows)
    decreases columns - x
  {
    if x == columns then s
    else Turn(PaintedRowFrom(s, columns, rows, offsets, y, x + 1), columns, rows, x, y,
              offsets[Index(columns, rows, x, y)])
  }

  /** Like RowsFrom, with every stepped cell painted right after its turn. */
  function PaintedRowsFrom(s: Scene, columns: nat, rows: nat, offsets: seq<Offset>, y: nat): (r: Scene)
    requires SceneShaped(s, columns, rows) && |offsets| == columns * rows && y <= rows
    ensures SceneShaped(r, columns, rows)
    decreases rows - y
  {
    if y == rows then s
    else PaintedRowFrom(PaintedRowsFrom(s, columns, rows, offsets, y + 1), columns, rows, offsets, y, 0)
  }

  /** Every frame supplies one offset per cell. */
  predicate Frames(columns: nat, rows: nat, frames: seq<seq<Offset>>)
  {
    forall f :: 0 <= f < |frames| ==> |frames[f]| == columns * rows
  }

  /** Any number of frames, one after another. */
  function Run(g: Grid, columns: nat, rows: nat, frames: seq<seq<Offset>>): (r: Grid)
    requires Shaped(g, columns, rows) && Frames(columns, rows, frames)
    ensures Shaped(r, columns, rows)
    decreases |frames|
  {
    if frames == [] then g
    else Run(Pass(g, columns, rows, frames[0]), columns, rows, frames[1..])
  }

  /** The grid right after start-up: one kind per draw, every health at
      MaxHealth (Empty cells included). */
  function Initial(draws: seq<Draw>): (r: Grid)
    ensures |r.creatures| == |draws| && |r.healths| == |draws|
    ensures forall k :: 0 <= k < |draws| ==> r.creatures[k] == RandomCreature(draws[k])
    ensures forall k :: 0 <= k < |draws| ==> r.healths[k] == MaxHealth
    ensures Healthy(r)
  {
    Grid(seq(|draws|, k requires 0 <= k < |draws| => RandomCreature(draws[k])),
         seq(|draws|, k => MaxHealth))
  }
}
