/** The board as a value, and the geometric rules of tetrisjs.js on it: the collision
    test, what landing writes, where a hard drop stops and which kick candidate a
    rotation takes. The game class keeps its board in an array; these are the
    functions its methods are proved against. */
module Playfield {
  import opened Pieces

  /** Board width (columns) and height (rows). */
  const W: int := 10
  const H: int := 20

  /** Where spawnNextBlock puts every new block. */
  const SpawnX: int := 5
  const SpawnY: int := -3

  datatype Option<T> = None | Some(value: T)

  type Row = seq<int>

  /** The board seen row by row: rows[y][x] is the cell board[x][y] of the
      column-major grid. `above` holds the cells (x, y), y < 0, that landing wrote
      above the top row: in the engine these are extra entries of a column array,
      invisible to the drawing and line-clearing loops but read by the collision test. */
  datatype Board = Board(rows: seq<Row>, above: set<(int, int)>)

  /** H rows of W cells. */
  predicate IsGrid(rows: seq<Row>) {
    |rows| == H && forall y :: 0 <= y < H ==> |rows[y]| == W
  }

  /** Every cell is 0 or 1. */
  predicate Binary(rows: seq<Row>) {
    forall y, x :: 0 <= y < |rows| && 0 <= x < |rows[y]| ==> rows[y][x] == 0 || rows[y][x] == 1
  }

  /** The read `board[x][y] === 1`: a written cell above the top, or an in-range cell equal to 1. */
  predicate Filled(b: Board, x: int, y: int)
    requires IsGrid(b.rows)
  {
    if y < 0 then (x, y) in b.above else 0 <= x < W && y < H && b.rows[y][x] == 1
  }

  /** The test applied to one occupied shape cell at absolute position (x, y):
      off the board sideways, below the floor, or on a filled cell. */
  predicate Blocked(b: Board, x: int, y: int)
    requires IsGrid(b.rows)
  {
    x >= W || y >= H || x < 0 || Filled(b, x, y)
  }

  /** checkCollision: some occupied cell of the shape, placed at (ox, oy), is blocked. */
  predicate Collides(b: Board, s: Shape, ox: int, oy: int)
    requires IsGrid(b.rows) && IsShape(s)
  {
    exists cx, cy :: 0 <= cx < |s| && 0 <= cy < |s| && s[cy][cx] == 1 && Blocked(b, ox + cx, oy + cy)
  }

  /** The shape placed at (ox, oy) has an occupied cell on (x, y). */
  predicate Covers(s: Shape, ox: int, oy: int, x: int, y: int)
    requires IsShape(s)
  {
    0 <= x - ox < |s| && 0 <= y - oy < |s| && s[y - oy][x - ox] == 1
  }

  /** Every occupied cell lies in a board column and above the floor: land can
      write the placement without leaving the board array. */
  predicate InBounds(s: Shape, ox: int, oy: int)
    requires IsShape(s)
  {
    forall cx, cy :: 0 <= cx < |s| && 0 <= cy < |s| && s[cy][cx] == 1 ==> 0 <= ox + cx < W && oy + cy < H
  }

  /** A catalog the engine can run on: well formed, and every type fits at the spawn point. */
  predicate CatalogFits(c: Catalog) {
    CatalogOk(c) && forall k: Kind :: InBounds(ShapeOf(c, k, 0), SpawnX, SpawnY)
  }

  function Spawned(k: Kind): Piece {
    Piece(SpawnX, SpawnY, k, 0)
  }

  function PieceShape(c: Catalog, p: Piece): Shape
    requires CatalogOk(c) && p.rot < |c.blocks[p.kind]|
  {
    ShapeOf(c, p.kind, p.rot)
  }

  /** The block has a rotation state of its type and its placement lies on the board. */
  predicate Placed(c: Catalog, p: Piece)
    requires CatalogOk(c)
  {
    p.rot < |c.blocks[p.kind]| && InBounds(PieceShape(c, p), p.x, p.y)
  }

  /** A free placement lies within the board columns and above the floor. */
  lemma FreeIsInBounds(b: Board, s: Shape, ox: int, oy: int)
    requires IsGrid(b.rows) && IsShape(s) && !Collides(b, s, ox, oy)
    ensures InBounds(s, ox, oy)
  {
  }

  /** A free placement of a shape with an occupied cell starts above the floor. */
  lemma FreeIsAboveFloor(b: Board, s: Shape, ox: int, oy: int)
    requires IsGrid(b.rows) && IsShape(s) && HasCell(s) && !Collides(b, s, ox, oy)
    ensures oy < H
  {
    var r, c :| 0 <= r < |s| && 0 <= c < |s[r]| && s[r][c] == 1;
    assert !Blocked(b, ox + c, oy + r);
  }

  /** On a board where nothing was written above the top, an occupied cell in a
      negative row collides only when it is outside the board columns. */
  lemma NegativeRowBlocksOnlySideways(b: Board, x: int, y: int)
    requires IsGrid(b.rows) && b.above == {} && y < 0
    ensures Blocked(b, x, y) <==> x < 0 || x >= W
  {
  }

  /** land: the board with 1 written under every occupied shape cell; cells above the
      top go to `above`. */
  function Landed(b: Board, s: Shape, ox: int, oy: int): (r: Board)
    requires IsGrid(b.rows) && IsShape(s) && InBounds(s, ox, oy)
    ensures IsGrid(r.rows)
  {
    Board(seq(H, y requires 0 <= y < H =>
                seq(W, x requires 0 <= x < W => if Covers(s, ox, oy, x, y) then 1 else b.rows[y][x])),
          b.above + set x, y | ox <= x < ox + |s| && oy <= y < oy + |s| && y < 0 && s[y - oy][x - ox] == 1 :: (x, y))
  }

  /** Landing sets exactly the covered cells: a covered cell on the board becomes 1, a
      covered cell above the top joins `above`, every other cell keeps its value; a
      0/1 board stays 0/1. */
  lemma LandedCells(b: Board, s: Shape, ox: int, oy: int)
    requires IsGrid(b.rows) && IsShape(s) && InBounds(s, ox, oy)
    ensures forall x, y :: 0 <= x < W && y < H ==>
      (Filled(Landed(b, s, ox, oy), x, y) <==> Filled(b, x, y) || Covers(s, ox, oy, x, y))
    ensures forall x, y :: 0 <= x < W && 0 <= y < H ==>
      Landed(b, s, ox, oy).rows[y][x] == if Covers(s, ox, oy, x, y) then 1 else b.rows[y][x]
    ensures forall x, y :: (x, y) in Landed(b, s, ox, oy).above <==> (x, y) in b.above || (y < 0 && Covers(s, ox, oy, x, y))
    ensures Binary(b.rows) ==> Binary(Landed(b, s, ox, oy).rows)
  {
  }

  /** Landing a free placement only overwrites empty cells, and the board stays 0/1. */
  lemma LandFillsOnlyEmptyCells(b: Board, s: Shape, ox: int, oy: int)
    requires IsGrid(b.rows) && Binary(b.rows) && IsShape(s) && !Collides(b, s, ox, oy)
    ensures InBounds(s, ox, oy)
    ensures forall x, y :: 0 <= x < W && 0 <= y < H && Covers(s, ox, oy, x, y) ==> b.rows[y][x] == 0
    ensures forall x, y :: y < 0 && Covers(s, ox, oy, x, y) ==> (x, y) !in b.above
    ensures Binary(Landed(b, s, ox, oy).rows)
  {
    LandedCells(b, s, ox, oy);
  }

  /** After landing, the landed placement itself collides: the collision test sees
      every cell land wrote, including those above the top. */
  lemma LandedPlacementCollides(b: Board, s: Shape, ox: int, oy: int)
    requires IsGrid(b.rows) && IsShape(s) && HasCell(s) && InBounds(s, ox, oy)
    ensures Collides(Landed(b, s, ox, oy), s, ox, oy)
  {
    var r, c :| 0 <= r < |s| && 0 <= c < |s[r]| && s[r][c] == 1;
    LandedCells(b, s, ox, oy);
    assert Covers(s, ox, oy, ox + c, oy + r);
    assert Blocked(Landed(b, s, ox, oy), ox + c, oy + r);
  }

  /** Where quickFall stops: the first row y >= y0 from which one row lower collides. */
  function LandingRow(b: Board, s: Shape, ox: int, y0: int): (r: int)
    requires IsGrid(b.rows) && IsShape(s) && HasCell(s)
    ensures y0 <= r
    decreases H - y0
  {
    if Collides(b, s, ox, y0 + 1) then y0
    else
      FreeIsAboveFloor(b, s, ox, y0 + 1);
      LandingRow(b, s, ox, y0 + 1)
  }

  /** The landing row is the first contact: every row passed on the way is free and
      one row lower collides. */
  lemma {:induction false} LandingRowIsFirstContact(b: Board, s: Shape, ox: int, y0: int)
    requires IsGrid(b.rows) && IsShape(s) && HasCell(s)
    ensures Collides(b, s, ox, LandingRow(b, s, ox, y0) + 1)
    ensures forall y :: y0 < y <= LandingRow(b, s, ox, y0) ==> !Collides(b, s, ox, y)
    decreases H - y0
  {
    if !Collides(b, s, ox, y0 + 1) {
      FreeIsAboveFloor(b, s, ox, y0 + 1);
      LandingRowIsFirstContact(b, s, ox, y0 + 1);
    }
  }

  /** The first candidate, from index `from` on, whose offset placement is free. */
  function FirstFree(b: Board, s: Shape, ox: int, oy: int, tests: seq<Offset>, from: nat): (r: Option<nat>)
    requires IsGrid(b.rows) && IsShape(s)
    ensures r.Some? ==> from <= r.value < |tests|
    decreases |tests| - from
  {
    if from >= |tests| then None
    else if !Collides(b, s, ox + tests[from].dx, oy + tests[from].dy) then Some(from)
    else FirstFree(b, s, ox, oy, tests, from + 1)
  }

  /** First fit: the chosen candidate is free and every candidate before it collides;
      with no choice, every candidate from `from` on collides. */
  lemma {:induction false} FirstFreeIsFirstFit(b: Board, s: Shape, ox: int, oy: int, tests: seq<Offset>, from: nat)
    requires IsGrid(b.rows) && IsShape(s)
    ensures FirstFree(b, s, ox, oy, tests, from).Some? ==>
      !Collides(b, s, ox + tests[FirstFree(b, s, ox, oy, tests, from).value].dx, oy + tests[FirstFree(b, s, ox, oy, tests, from).value].dy)
    ensures forall j :: from <= j < |tests| && (FirstFree(b, s, ox, oy, tests, from).None? || j < FirstFree(b, s, ox, oy, tests, from).value) ==>
      Collides(b, s, ox + tests[j].dx, oy + tests[j].dy)
    decreases |tests| - from
  {
    if from < |tests| && Collides(b, s, ox + tests[from].dx, oy + tests[from].dy) {
      FirstFreeIsFirstFit(b, s, ox, oy, tests, from + 1);
    }
  }

  /** The kick candidate srsKickTest applies when turning block p from `init` to `nrot`. */
  function KickIndex(b: Board, c: Catalog, p: Piece, clockwise: bool, init: nat, nrot: nat): (r: Option<nat>)
    requires IsGrid(b.rows) && CatalogOk(c) && init < |Table(c, p.kind)| && nrot < |c.blocks[p.kind]|
    ensures r.Some? ==> r.value < |Tests(c, p.kind, init, clockwise)|
  {
    FirstFree(b, ShapeOf(c, p.kind, nrot), p.x, p.y, Tests(c, p.kind, init, clockwise), 0)
  }

  /** The block after srsKickTest: moved by the first free candidate and turned to
      `nrot`, or unchanged when every candidate collides. */
  function Kick(b: Board, c: Catalog, p: Piece, clockwise: bool, init: nat, nrot: nat): (r: Piece)
    requires IsGrid(b.rows) && CatalogOk(c) && init < |Table(c, p.kind)| && nrot < |c.blocks[p.kind]|
    ensures r.kind == p.kind
    ensures r == p || r.rot == nrot
  {
    var tests := Tests(c, p.kind, init, clockwise);
    match KickIndex(b, c, p, clockwise, init, nrot)
    case None => p
    case Some(i) => p.(x := p.x + tests[i].dx, y := p.y + tests[i].dy, rot := nrot)
  }

  /** A rotation either fails and leaves the block as it was, or turns it to `nrot`
      onto a free placement whose offset is a candidate of the table, and no earlier
      candidate was free. */
  lemma KickLandsFree(b: Board, c: Catalog, p: Piece, clockwise: bool, init: nat, nrot: nat)
    requires IsGrid(b.rows) && CatalogOk(c) && init < |Table(c, p.kind)| && nrot < |c.blocks[p.kind]|
    ensures KickIndex(b, c, p, clockwise, init, nrot).None? ==> Kick(b, c, p, clockwise, init, nrot) == p
    ensures KickIndex(b, c, p, clockwise, init, nrot).None? ==>
      forall t :: t in Tests(c, p.kind, init, clockwise) ==> Collides(b, ShapeOf(c, p.kind, nrot), p.x + t.dx, p.y + t.dy)
    ensures KickIndex(b, c, p, clockwise, init, nrot).Some? ==>
      var r := Kick(b, c, p, clockwise, init, nrot);
      r.kind == p.kind && r.rot == nrot && !Collides(b, ShapeOf(c, p.kind, nrot), r.x, r.y)
      && Offset(r.x - p.x, r.y - p.y) in Tests(c, p.kind, init, clockwise)
  {
    FirstFreeIsFirstFit(b, ShapeOf(c, p.kind, nrot), p.x, p.y, Tests(c, p.kind, init, clockwise), 0);
  }
}
