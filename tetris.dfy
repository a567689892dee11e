/** The game of tetrisjs.js: the global board and block, and the functions that
    change them, as a class over a W x H array indexed board[x, y] (column-major).
    Every method is proved against the board value of Playfield and LineClear:
    `View()` is the board seen as rows, with the cells written above the top. */
module Tetris {
  import opened Pieces
  import opened Playfield
  import opened LineClear

  /** A key press: keyCode for the arrow keys, the typed character otherwise. */
  datatype KeyEvent = LeftArrow | RightArrow | DownArrow | UpArrow | Typed(c: char)

  /** The board and the falling block. */
  datatype State = State(board: Board, block: Piece)

  /** What every game state satisfies: a usable catalog, a 0/1 board of the right
      size, and a block whose placement lies on the board. Spawning does not test
      for collision, so a block that overlaps filled cells is allowed. */
  predicate Playable(c: Catalog, s: State) {
    CatalogFits(c) && IsGrid(s.board.rows) && Binary(s.board.rows) && Placed(c, s.block)
  }

  /** A left (dx = -1) or right (dx = 1) move: taken exactly when the shifted
      placement is free; only x changes. */
  function Shifted(b: Board, c: Catalog, p: Piece, dx: int): (r: Piece)
    requires IsGrid(b.rows) && CatalogOk(c) && p.rot < |c.blocks[p.kind]|
    requires dx != 0
    ensures r.y == p.y && r.kind == p.kind && r.rot == p.rot
    ensures r.x == p.x + dx <==> !Collides(b, PieceShape(c, p), p.x + dx, p.y)
    ensures r.x != p.x + dx ==> r == p
  {
    if Collides(b, PieceShape(c, p), p.x + dx, p.y) then p else p.(x := p.x + dx)
  }

  /** Locking: land the block where it is, clear lines, spawn the next type. */
  function Locked(b: Board, c: Catalog, p: Piece, next: Kind): (r: State)
    requires IsGrid(b.rows) && CatalogFits(c) && Placed(c, p)
    ensures r.block == Spawned(next)
    ensures b.above <= r.board.above
  {
    State(Cleared(Landed(b, PieceShape(c, p), p.x, p.y)), Spawned(next))
  }

  /** fall: one row down when that placement is free, otherwise lock. */
  function FallStep(b: Board, c: Catalog, p: Piece, next: Kind): (r: State)
    requires IsGrid(b.rows) && CatalogFits(c) && Placed(c, p)
    ensures r.block == p.(y := p.y + 1) || r.block == Spawned(next)
    ensures r.board != b ==> r.block == Spawned(next)
  {
    if Collides(b, PieceShape(c, p), p.x, p.y + 1) then Locked(b, c, p, next)
    else State(b, p.(y := p.y + 1))
  }

  /** quickFall: down to the landing row, then lock. */
  function DropStep(b: Board, c: Catalog, p: Piece, next: Kind): (r: State)
    requires IsGrid(b.rows) && CatalogFits(c) && Placed(c, p)
    ensures r.block == Spawned(next)
    ensures b.above <= r.board.above
  {
    var y := LandingRow(b, PieceShape(c, p), p.x, p.y);
    LandingRowIsFirstContact(b, PieceShape(c, p), p.x, p.y);
    assert y == p.y || !Collides(b, PieceShape(c, p), p.x, y);
    Locked(b, c, p.(y := y), next)
  }

  /** The rotation state the W (counter-clockwise) or X (clockwise) key aims at. */
  function TurnTarget(c: Catalog, p: Piece, clockwise: bool): (r: nat)
    requires CatalogOk(c) && p.rot < |c.blocks[p.kind]|
    ensures r < |c.blocks[p.kind]|
  {
    TargetsInRange(p.rot, |c.blocks[p.kind]|);
    if clockwise then CwTarget(p.rot) else CcwTarget(p.rot, |c.blocks[p.kind]|)
  }

  /** The block after the W or X key. */
  function Turned(b: Board, c: Catalog, p: Piece, clockwise: bool): Piece
    requires IsGrid(b.rows) && CatalogOk(c) && p.rot < |c.blocks[p.kind]|
  {
    Kick(b, c, p, clockwise, p.rot, TurnTarget(c, p, clockwise))
  }

  /** keyPressed of tetrisjs.js on values: the arrows act only when not paused,
      P toggles the pause, W and X rotate whether paused or not (only the upper-case
      characters match). The second component is the new pause flag. */
  function KeyStep(b: Board, c: Catalog, p: Piece, paused: bool, key: KeyEvent, next: Kind): (r: (State, bool))
    requires IsGrid(b.rows) && CatalogFits(c) && Placed(c, p)
    ensures r.0.board != b ==> !paused && (key == DownArrow || key == UpArrow)
    ensures r.1 != paused ==> key == Typed('P')
    ensures r.0.block.kind == p.kind || r.0.block == Spawned(next)
  {
    match key
    case LeftArrow => (if paused then State(b, p) else State(b, Shifted(b, c, p, -1)), paused)
    case RightArrow => (if paused then State(b, p) else State(b, Shifted(b, c, p, 1)), paused)
    case DownArrow => (if paused then State(b, p) else FallStep(b, c, p, next), paused)
    case UpArrow => (if paused then State(b, p) else DropStep(b, c, p, next), paused)
    case Typed(ch) =>
      if ch == 'P' then (State(b, p), !paused)
      else if ch == 'W' then (State(b, Turned(b, c, p, false)), paused)
      else if ch == 'X' then (State(b, Turned(b, c, p, true)), paused)
      else (State(b, p), paused)
  }

  /** Locking keeps the state playable and leaves no full row. */
  lemma LockKeepsPlayable(b: Board, c: Catalog, p: Piece, next: Kind)
    requires Playable(c, State(b, p))
    ensures Playable(c, Locked(b, c, p, next))
    ensures forall y :: 0 <= y < H ==> !Full(Locked(b, c, p, next).board.rows[y])
  {
    var landed := Landed(b, PieceShape(c, p), p.x, p.y);
    LandedCells(b, PieceShape(c, p), p.x, p.y);
    NoFullRowAfterClear(landed.rows);
  }

  /** Every key keeps the state playable: moves, falls and kicks only reach free
      placements, and a lock spawns a block that fits at the spawn point. */
  lemma KeyStepKeepsPlayable(b: Board, c: Catalog, p: Piece, paused: bool, key: KeyEvent, next: Kind)
    requires Playable(c, State(b, p))
    ensures Playable(c, KeyStep(b, c, p, paused, key, next).0)
  {
    var s := PieceShape(c, p);
    match key
    case LeftArrow =>
    case RightArrow =>
    case DownArrow =>
      if !Collides(b, s, p.x, p.y + 1) {
        FreeIsInBounds(b, s, p.x, p.y + 1);
      } else {
        LockKeepsPlayable(b, c, p, next);
      }
    case UpArrow =>
      var y := LandingRow(b, s, p.x, p.y);
      LandingRowIsFirstContact(b, s, p.x, p.y);
      if y != p.y {
        FreeIsInBounds(b, s, p.x, y);
      }
      LockKeepsPlayable(b, c, p.(y := y), next);
    case Typed(ch) =>
      if ch == 'W' || ch == 'X' {
        var nrot := TurnTarget(c, p, ch == 'X');
        KickLandsFree(b, c, p, ch == 'X', p.rot, nrot);
        var r := Turned(b, c, p, ch == 'X');
        if r != p {
          FreeIsInBounds(b, ShapeOf(c, p.kind, nrot), r.x, r.y);
        }
      }
  }

  /** Pausing gates the arrow keys: while paused they change nothing. */
  lemma PauseGatesArrows(b: Board, c: Catalog, p: Piece, key: KeyEvent, next: Kind)
    requires IsGrid(b.rows) && CatalogFits(c) && Placed(c, p) && !key.Typed?
    ensures KeyStep(b, c, p, true, key, next) == (State(b, p), true)
  {
  }

  /** W and X are not gated by the pause: they turn the block the same way whether
      paused or not, and keep the pause flag. */
  lemma RotationIgnoresPause(b: Board, c: Catalog, p: Piece, ch: char, next: Kind)
    requires IsGrid(b.rows) && CatalogFits(c) && Placed(c, p) && (ch == 'W' || ch == 'X')
    ensures KeyStep(b, c, p, true, Typed(ch), next).0 == KeyStep(b, c, p, false, Typed(ch), next).0
    ensures KeyStep(b, c, p, true, Typed(ch), next).0.block == Turned(b, c, p, ch == 'X')
    ensures KeyStep(b, c, p, true, Typed(ch), next).1
  {
  }

  class Game {
    /** The playfield, board[x, y] with x the column and y the row (0 at the top). */
    var board: array2<int>
    /** The same playfield row by row: rows[y][x] is board[x, y]. */
    ghost var rows: seq<Row>
    /** The cells land wrote above the top row. */
    var above: set<(int, int)>
    var block: Piece
    var paused: bool
    const catalog: Catalog

    ghost function View(): Board
      reads this`rows, this`above
    {
      Board(rows, above)
    }

    /** The array has its size, holds only 0 and 1, and agrees with `rows`. */
    ghost predicate Grid()
      reads this`board, this`rows, board
    {
      board.Length0 == W && board.Length1 == H && IsGrid(rows) && Binary(rows)
      && forall x, y :: 0 <= x < W && 0 <= y < H ==> board[x, y] == rows[y][x]
    }

    /** The game invariant: a 0/1 board, a usable catalog, a block placed on the board. */
    ghost predicate Valid()
      reads this`board, this`rows, this`block, board
    {
      Grid() && CatalogFits(catalog) && Placed(catalog, block)
    }

    /** The read `board[x][y] === 1`, for a column on the board and a row above the floor. */
    function IsOne(x: int, y: int): (r: bool)
      reads this`board, this`rows, this`above, board
      requires Grid() && 0 <= x < W && y < H
      ensures r == Filled(View(), x, y)
    {
      if y < 0 then (x, y) in above else board[x, y] == 1
    }

    /** initBoard: a fresh board of W columns of H zeros; nothing above the top. */
    method InitBoard()
      modifies this
      ensures fresh(board) && Grid()
      ensures View() == Board(Repeat(Zeros(W), H), {})
      ensures block == old(block) && paused == old(paused)
    {
      var a := new int[W, H];
      var w := 0;
      while w < W
        invariant 0 <= w <= W
        invariant forall x, y :: 0 <= x < w && 0 <= y < H ==> a[x, y] == 0
        modifies a
      {
        var h := 0;
        while h < H
          invariant 0 <= h <= H
          invariant forall x, y :: 0 <= x < w && 0 <= y < H ==> a[x, y] == 0
          invariant forall y :: 0 <= y < h ==> a[w, y] == 0
          modifies a
        {
          a[w, h] := 0;
          h := h + 1;
        }
        w := w + 1;
      }
      board := a;
      above := {};
      rows := Repeat(Zeros(W), H);
    }

    /** spawnNextBlock, with the drawn type as a parameter. */
    method SpawnNextBlock(kind: Kind)
      modifies this
      ensures block == Spawned(kind)
      ensures board == old(board) && rows == old(rows) && above == old(above) && paused == old(paused)
      ensures Grid() && CatalogFits(catalog) ==> Valid()
    {
      block := block.(kind := kind);
      block := block.(rot := 0);
      block := block.(x := SpawnX);
      block := block.(y := SpawnY);
    }

    /** initGame: an empty board and a freshly spawned block. */
    method InitGame(first: Kind)
      requires CatalogFits(catalog)
      modifies this
      ensures Valid() && fresh(board) && paused == old(paused)
      ensures View() == Board(Repeat(Zeros(W), H), {}) && block == Spawned(first)
    {
      InitBoard();
      SpawnNextBlock(first);
    }

    /** The session set up by setup(): the data loaded, a new game, not paused. */
    constructor (c: Catalog, first: Kind)
      requires CatalogFits(c)
      ensures Valid() && fresh(board) && catalog == c && !paused
      ensures View() == Board(Repeat(Zeros(W), H), {}) && block == Spawned(first)
    {
      catalog := c;
      board := new int[W, H];
      rows := [];
      above := {};
      block := Piece(0, 0, T, 0);
      paused := false;
      new;
      InitGame(first);
    }

    /** checkCollision: columns left to right, each scanned bottom to top, stopping at
      the first occupied cell that is blocked. */
    method CheckCollision(ox: int, oy: int, kind: Kind, rot: nat) returns (hit: bool)
      requires Valid() && rot < |catalog.blocks[kind]|
      ensures hit == Collides(View(), ShapeOf(catalog, kind, rot), ox, oy)
    {
      var shape := ShapeOf(catalog, kind, rot);
      var x := 0;
      while x < |shape|
        invariant 0 <= x <= |shape|
        invariant forall cx, cy :: 0 <= cx < x && 0 <= cy < |shape| && shape[cy][cx] == 1 ==>
          !Blocked(View(), ox + cx, oy + cy)
      {
        var y := |shape| - 1;
        while y >= 0
          invariant -1 <= y < |shape|
          invariant forall cy :: y < cy < |shape| && shape[cy][x] == 1 ==> !Blocked(View(), ox + x, oy + cy)
        {
          if shape[y][x] == 1 && (ox + x >= W || oy + y >= H || ox + x < 0 || IsOne(ox + x, oy + y)) {
            return true;
          }
          y := y - 1;
        }
        x := x + 1;
      }
      return false;
    }

    /** getHighestEmptyY: from row oy down, the last row before a filled cell or the floor
      in column x; oy itself when oy is already below the board. */
    method GetHighestEmptyY(x: int, oy: int) returns (r: int)
      requires Valid() && 0 <= x < W
      ensures oy >= H ==> r == oy
      ensures oy < H ==> oy <= r < H && (r + 1 == H || Filled(View(), x, r + 1))
      ensures oy < H ==> forall y :: oy < y <= r ==> !Filled(View(), x, y)
    {
      var y := oy;
      while y < H
        invariant oy <= y && (oy < H ==> y < H)
        invariant forall yy :: oy < yy <= y ==> !Filled(View(), x, yy)
      {
        if y + 1 >= H || IsOne(x, y + 1) {
          return y;
        }
        y := y + 1;
      }
      return oy;
    }

    /** land: writes 1 under every occupied cell of the block. */
    method Land()
      requires Valid()
      modifies this, board
      ensures Valid() && board == old(board) && block == old(block) && paused == old(paused)
      ensures View() == Landed(old(View()), PieceShape(catalog, block), block.x, block.y)
    {
      ghost var before := View();
      var shape := PieceShape(catalog, block);
      var left, top := block.x, block.y;
      var x := 0;
      while x < |shape|
        invariant 0 <= x <= |shape| && board.Length0 == W && board.Length1 == H
        invariant board == old(board) && block == old(block) && paused == old(paused) && rows == old(rows)
        invariant forall px, py :: 0 <= px < W && 0 <= py < H ==>
          board[px, py] == if Covers(shape, left, top, px, py) && px - left < x then 1 else before.rows[py][px]
        invariant forall px, py :: (px, py) in above <==>
          (px, py) in before.above || (py < 0 && Covers(shape, left, top, px, py) && px - left < x)
      {
        LandColumn(shape, left, top, x, before);
        x := x + 1;
      }
      var want := Landed(before, shape, left, top);
      LandedCells(before, shape, left, top);
      rows := want.rows;
      forall p: (int, int) ensures p in above <==> p in want.above {
        var px, py := p.0, p.1;
        assert (px, py) in above <==> (px, py) in want.above;
        assert p == (px, py);
      }
    }

    /** The inner loop of land: the cells of column x of the shape, top to bottom;
      a cell above the top row goes to `above`, one on the board into the array. */
    method LandColumn(shape: Shape, left: int, top: int, x: int, ghost before: Board)
      requires board.Length0 == W && board.Length1 == H && IsGrid(before.rows)
      requires IsShape(shape) && InBounds(shape, left, top) && 0 <= x < |shape|
      requires forall px, py :: 0 <= px < W && 0 <= py < H ==>
        board[px, py] == if Covers(shape, left, top, px, py) && px - left < x then 1 else before.rows[py][px]
      requires forall px, py :: (px, py) in above <==>
        (px, py) in before.above || (py < 0 && Covers(shape, left, top, px, py) && px - left < x)
      modifies this`above, board
      ensures forall px, py :: 0 <= px < W && 0 <= py < H ==>
        board[px, py] == if Covers(shape, left, top, px, py) && px - left <= x then 1 else before.rows[py][px]
      ensures forall px, py :: (px, py) in above <==>
        (px, py) in before.above || (py < 0 && Covers(shape, left, top, px, py) && px - left <= x)
    {
      var y := 0;
      while y < |shape|
        invariant 0 <= y <= |shape|
        invariant forall px, py :: 0 <= px < W && 0 <= py < H ==>
          board[px, py] == if Covers(shape, left, top, px, py) && (px - left < x || (px - left == x && py - top < y)) then 1 else before.rows[py][px]
        invariant forall px, py :: (px, py) in above <==>
          (px, py) in before.above || (py < 0 && Covers(shape, left, top, px, py) && (px - left < x || (px - left == x && py - top < y)))
      {
        if shape[y][x] == 1 {
          if y + top < 0 {
            above := above + {(x + left, y + top)};
          } else {
            board[x + left, y + top] := shape[y][x];
          }
        }
        y := y + 1;
      }
    }

    /** clearLine: row y becomes all zeros. */
    method ClearLine(y: int)
      requires Grid() && 0 <= y < H
      modifies this, board
      ensures Grid() && rows == old(rows)[y := Zeros(W)]
      ensures board == old(board) && above == old(above) && block == old(block) && paused == old(paused)
    {
      var x := 0;
      while x < W
        invariant 0 <= x <= W
        invariant forall px, py :: 0 <= px < W && 0 <= py < H ==>
          board[px, py] == if py == y && px < x then 0 else rows[py][px]
        modifies board
      {
        board[x, y] := 0;
        x := x + 1;
      }
      rows := rows[y := Zeros(W)];
    }

    /** blockFall(yMax): rows yMax down to 1 each take the row above them. */
    method BlockFall(yMax: int)
      requires Grid() && yMax < H
      modifies this, board
      ensures Grid() && rows == ShiftedDown(old(rows), yMax)
      ensures board == old(board) && above == old(above) && block == old(block) && paused == old(paused)
    {
      var y := yMax;
      while y > 0
        invariant y <= yMax && (yMax >= 0 ==> 0 <= y)
        invariant forall px, py :: 0 <= px < W && 0 <= py < H ==>
          board[px, py] == if y < py <= yMax then rows[py - 1][px] else rows[py][px]
        modifies board
      {
        var x := 0;
        while x < W
          invariant 0 <= x <= W
          invariant forall px, py :: 0 <= px < W && 0 <= py < H ==>
            board[px, py] == if (y < py <= yMax) || (py == y && px < x) then rows[py - 1][px] else rows[py][px]
          modifies board
        {
          board[x, y] := board[x, y - 1];
          x := x + 1;
        }
        y := y - 1;
      }
      rows := ShiftedDown(rows, yMax);
    }

    /** checkClear: the top-to-bottom sweep; returns how many rows were full on entry.
      Its two arguments are not used. */
    method CheckClear(y1: int, y2: int) returns (linesCleared: int)
      requires Grid()
      modifies this, board
      ensures Grid() && rows == Compacted(old(rows))
      ensures linesCleared == CountFull(old(rows))
      ensures board == old(board) && above == old(above) && block == old(block) && paused == old(paused)
    {
      ghost var orig := rows;
      linesCleared := 0;
      var notCleared := false;
      var y := 0;
      assert orig[..0] == [];
      while y < H
        invariant 0 <= y <= H && Grid() && !notCleared
        invariant board == old(board) && above == old(above) && block == old(block) && paused == old(paused)
        invariant rows == Sweep(orig, y)
        invariant linesCleared == CountFull(orig[..y])
      {
        var x := 0;
        while x < W
          invariant 0 <= x <= W && !notCleared
          invariant forall px :: 0 <= px < x ==> board[px, y] != 0
        {
          if board[x, y] == 0 {
            notCleared := true;
            break;
          }
          x := x + 1;
        }
        assert rows[y] == orig[y] by {
          SweepClosedForm(orig, y);
          SweepStep(orig, y);
        }
        assert notCleared <==> !Full(orig[y]);
        CountStep(orig, y);
        if !notCleared {
          ClearLine(y);
          BlockFall(y);
          linesCleared := linesCleared + 1;
        }
        notCleared := false;
        y := y + 1;
      }
      assert orig[..H] == orig;
    }

    /** The locking sequence shared by fall and quickFall: land the block where it
      is, sweep the full rows, spawn `next`. */
    method Lock(next: Kind)
      requires Valid()
      modifies this, board
      ensures Valid() && board == old(board) && paused == old(paused)
      ensures State(View(), block) == Locked(old(View()), catalog, old(block), next)
    {
      Land();
      ghost var landed := View();
      var cleared := CheckClear(block.y, block.y + 4);
      assert View() == Cleared(landed);
      SpawnNextBlock(next);
    }

    /** fall: one row down, or lock and spawn `next` when blocked below. */
    method Fall(next: Kind)
      requires Valid()
      modifies this, board
      ensures Valid() && board == old(board) && paused == old(paused)
      ensures State(View(), block) == FallStep(old(View()), catalog, old(block), next)
    {
      var hit := CheckCollision(block.x, block.y + 1, block.kind, block.rot);
      if hit {
        Lock(next);
      } else {
        FreeIsInBounds(View(), PieceShape(catalog, block), block.x, block.y + 1);
        block := block.(y := block.y + 1);
      }
    }

    /** quickFall: the hard drop; moves down while the next row is free, then locks. */
    method QuickFall(next: Kind)
      requires Valid()
      modifies this, board
      ensures Valid() && board == old(board) && paused == old(paused)
      ensures State(View(), block) == DropStep(old(View()), catalog, old(block), next)
    {
      ghost var s := PieceShape(catalog, block);
      ghost var b := View();
      ghost var target := LandingRow(b, s, block.x, block.y);
      var hit := CheckCollision(block.x, block.y + 1, block.kind, block.rot);
      while !hit
        invariant Valid() && block == old(block).(y := block.y)
        invariant LandingRow(b, s, block.x, block.y) == target
        invariant hit == Collides(b, s, block.x, block.y + 1)
        decreases H - block.y
        modifies this`block
      {
        FreeIsAboveFloor(b, s, block.x, block.y + 1);
        FreeIsInBounds(b, s, block.x, block.y + 1);
        block := block.(y := block.y + 1);
        hit := CheckCollision(block.x, block.y + 1, block.kind, block.rot);
      }
      assert block == old(block).(y := target);
      Lock(next);
    }

    /** srsKickTest: tries the kick candidates of the block's table in order and
      applies the first whose rotated placement is free. */
    method SrsKickTest(clockwise: bool, init: nat, nrot: nat) returns (ok: bool)
      requires Valid() && init < |Table(catalog, block.kind)| && nrot < |catalog.blocks[block.kind]|
      modifies this`block
      ensures Valid()
      ensures ok == KickIndex(View(), catalog, old(block), clockwise, init, nrot).Some?
      ensures block == Kick(View(), catalog, old(block), clockwise, init, nrot)
    {
      var tests := Tests(catalog, block.kind, init, clockwise);
      ghost var s := ShapeOf(catalog, block.kind, nrot);
      ghost var b := View();
      ghost var k := KickIndex(b, catalog, block, clockwise, init, nrot);
      var i := 0;
      while i < |tests|
        invariant 0 <= i <= |tests|
        invariant FirstFree(b, s, block.x, block.y, tests, i) == k
        modifies {}
      {
        var hit := CheckCollision(block.x + tests[i].dx, block.y + tests[i].dy, block.kind, nrot);
        if !hit {
          break;
        }
        i := i + 1;
      }
      if i == |tests| {
        assert k == None;
        return false;
      }
      assert k == Some(i);
      FreeIsInBounds(b, s, block.x + tests[i].dx, block.y + tests[i].dy);
      block := block.(x := block.x + tests[i].dx, y := block.y + tests[i].dy, rot := nrot);
      return true;
    }

    /** The left and right arrows: move one column (dx = -1 or 1) when the shifted
      placement is free. */
    method Shift(dx: int) returns (moved: bool)
      requires Valid() && (dx == -1 || dx == 1)
      modifies this`block
      ensures Valid() && block == Shifted(View(), catalog, old(block), dx)
      ensures moved == !Collides(View(), PieceShape(catalog, old(block)), old(block).x + dx, old(block).y)
    {
      var hit := CheckCollision(block.x + dx, block.y, block.kind, block.rot);
      if !hit {
        FreeIsInBounds(View(), PieceShape(catalog, block), block.x + dx, block.y);
        block := block.(x := block.x + dx);
      }
      moved := !hit;
    }

    /** keyPressed of tetrisjs.js. The arrow tests (gated by the pause) and the
      character tests are separate ifs in the engine; a key event is one or the other,
      so they are one match here. */
    method KeyPressed(key: KeyEvent, next: Kind)
      requires Valid()
      modifies this, board
      ensures Valid() && board == old(board)
      ensures (State(View(), block), paused) == KeyStep(old(View()), catalog, old(block), old(paused), key, next)
    {
      match key {
        case LeftArrow =>
          if !paused {
            var moved := Shift(-1);
          }
        case RightArrow =>
          if !paused {
            var moved := Shift(1);
          }
        case DownArrow =>
          if !paused { Fall(next); }
        case UpArrow =>
          if !paused { QuickFall(next); }
        case Typed(ch) =>
          if ch == 'P' {
            paused := !paused;
          } else if ch == 'W' {
            var tmp := block.rot - 1;
            if tmp < 0 { tmp := |catalog.blocks[block.kind]| - 1; }
            assert tmp == TurnTarget(catalog, block, false);
            var ok := SrsKickTest(false, block.rot, tmp);
          } else if ch == 'X' {
            assert (block.rot + 1) % 4 == TurnTarget(catalog, block, true);
            var ok := SrsKickTest(true, block.rot, (block.rot + 1) % 4);
          }
      }
    }
  }
}
