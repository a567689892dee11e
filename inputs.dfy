/** The keyboard layer of inputs.js: the auto-repeat gate for held arrow keys
    (keyDown), the held-count reset on release (keyReleased) and the character keys
    (keyPressed). Time is the value millis() returned, passed in as `t`; the held-key
    flags keyIsDown(...) are passed in as a `Held` value. The game the keys act on is
    the Game of the Tetris module. */
module Inputs {
  import opened Pieces
  import opened Playfield
  import opened Tetris

  /** The move kinds keyDown records in lastRegisteredMove. */
  datatype Move = MoveRight | MoveLeft

  /** Which arrow keys are down at the time of the call. */
  datatype Held = Held(right: bool, left: bool, down: bool)

  /** The auto-repeat bookkeeping: lastInput, inputHeldCount, lastRegisteredMove. */
  datatype Timing = Timing(lastInput: real, heldCount: int, lastMove: Option<Move>)

  /** The flags keyPressed changes besides the block: pause, debug and lastTime. */
  datatype Flags = Flags(paused: bool, debug: bool, lastTime: real)

  /** The repeat threshold: DAS for the first repeat of a held move, ARR after it. */
  function Delay(heldCount: int, das: real, arr: real): real {
    if heldCount == 1 then das else arr
  }

  /** keyDown returns at once: an input was accepted before and less than the
      threshold has passed since. */
  predicate InWindow(tm: Timing, t: real, das: real, arr: real) {
    tm.lastInput > 0.0 && t - tm.lastInput < Delay(tm.heldCount, das, arr)
  }

  /** keyDown on values. Right is tried first, then left, then down; a right move that
      is blocked ends the call. A side move is the `Shifted` move of the arrow keys. An
      accepted side move records the time, counts one
      more held input and the move kind; down falls and records the time. With no
      arrow down the count goes back to 0. */
  function KeyDownStep(b: Board, c: Catalog, p: Piece, tm: Timing, t: real, das: real, arr: real,
                       keys: Held, next: Kind): (r: (State, Timing))
    requires IsGrid(b.rows) && CatalogFits(c) && Placed(c, p)
    ensures r.0.board != b ==> !InWindow(tm, t, das, arr) && !keys.right && !keys.left && keys.down
    ensures r.1.heldCount == 0 || r.1.heldCount == tm.heldCount || r.1.heldCount == tm.heldCount + 1
    ensures r.1.lastInput == tm.lastInput || r.1.lastInput == t
  {
    if InWindow(tm, t, das, arr) then (State(b, p), tm)
    else if keys.right || keys.left then
      var q := Shifted(b, c, p, if keys.right then 1 else -1);
      if q == p then (State(b, p), tm)
      else (State(b, q), Timing(t, tm.heldCount + 1, Some(if keys.right then MoveRight else MoveLeft)))
    else if keys.down then (FallStep(b, c, p, next), tm.(lastInput := t))
    else (State(b, p), tm.(heldCount := 0))
  }

  /** keyPressed of inputs.js on values, for the keys it handles here: P toggles the
      pause and stamps lastTime, W turns counter-clockwise, X clockwise, D toggles
      debug; lower and upper case alike, and none of them gated by the pause. R and C
      call initGame and swap of a later engine version, which are not part of this
      model; here they change nothing, like every other key. */
  function PressStep(b: Board, c: Catalog, p: Piece, f: Flags, key: char, t: real): (r: (Piece, Flags))
    requires IsGrid(b.rows) && CatalogFits(c) && Placed(c, p)
    ensures r.0 != p ==> key in "wWxX"
    ensures r.1.paused != f.paused || r.1.lastTime != f.lastTime ==> key in "pP"
    ensures r.1.debug != f.debug ==> key in "dD"
    ensures r.0.kind == p.kind
  {
    if key == 'p' || key == 'P' then (p, f.(paused := !f.paused, lastTime := t))
    else if key == 'w' || key == 'W' then (Turned(b, c, p, false), f)
    else if key == 'x' || key == 'X' then (Turned(b, c, p, true), f)
    else if key == 'd' || key == 'D' then (p, f.(debug := !f.debug))
    else (p, f)
  }

  /** The gate: inside the window nothing changes. Outside it, a call that changes
      the timing was let through by a threshold that is DAS exactly when the held
      count was 1, and ARR otherwise. */
  lemma RepeatGate(b: Board, c: Catalog, p: Piece, tm: Timing, t: real, das: real, arr: real,
                   keys: Held, next: Kind)
    requires IsGrid(b.rows) && CatalogFits(c) && Placed(c, p)
    ensures InWindow(tm, t, das, arr) ==> KeyDownStep(b, c, p, tm, t, das, arr, keys, next) == (State(b, p), tm)
    ensures KeyDownStep(b, c, p, tm, t, das, arr, keys, next).1 != tm ==>
      tm.lastInput <= 0.0 || t - tm.lastInput >= (if tm.heldCount == 1 then das else arr)
  {
  }

  /** Right has priority: with right down, whether left or down are also down makes no
      difference, so a blocked right move does not fall through to left. */
  lemma RightTakesPriority(b: Board, c: Catalog, p: Piece, tm: Timing, t: real, das: real, arr: real,
                           keys: Held, next: Kind)
    requires IsGrid(b.rows) && CatalogFits(c) && Placed(c, p) && keys.right
    ensures KeyDownStep(b, c, p, tm, t, das, arr, keys, next)
         == KeyDownStep(b, c, p, tm, t, das, arr, Held(true, false, false), next)
    ensures Collides(b, PieceShape(c, p), p.x + 1, p.y) ==>
      KeyDownStep(b, c, p, tm, t, das, arr, keys, next) == (State(b, p), tm)
  {
  }

  /** Left has priority over down when right is up. */
  lemma LeftBeatsDown(b: Board, c: Catalog, p: Piece, tm: Timing, t: real, das: real, arr: real,
                      keys: Held, next: Kind)
    requires IsGrid(b.rows) && CatalogFits(c) && Placed(c, p) && !keys.right && keys.left
    ensures KeyDownStep(b, c, p, tm, t, das, arr, keys, next)
         == KeyDownStep(b, c, p, tm, t, das, arr, Held(false, true, false), next)
  {
  }

  /** A side move outside the window: taken exactly when free, and then only x moves
      by one, lastInput becomes t and the count goes up by one; blocked, nothing
      changes. The board is untouched either way. */
  lemma SideMoveBookkeeping(b: Board, c: Catalog, p: Piece, tm: Timing, t: real, das: real, arr: real,
                            keys: Held, next: Kind)
    requires IsGrid(b.rows) && CatalogFits(c) && Placed(c, p)
    requires !InWindow(tm, t, das, arr) && (keys.right || keys.left)
    ensures var dx := if keys.right then 1 else -1;
      var r := KeyDownStep(b, c, p, tm, t, das, arr, keys, next);
      r.0.board == b
      && (r.0.block == p.(x := p.x + dx) <==> !Collides(b, PieceShape(c, p), p.x + dx, p.y))
      && (r.0.block == p.(x := p.x + dx) ==>
            r.1 == Timing(t, tm.heldCount + 1, Some(if keys.right then MoveRight else MoveLeft)))
      && (r.0.block != p.(x := p.x + dx) ==> r == (State(b, p), tm))
  {
  }

  /** Down alone, outside the window: one fall, lastInput becomes t, the count and the
      recorded move are kept. No arrow at all: only the count is reset. */
  lemma DownAndNoKey(b: Board, c: Catalog, p: Piece, tm: Timing, t: real, das: real, arr: real,
                     keys: Held, next: Kind)
    requires IsGrid(b.rows) && CatalogFits(c) && Placed(c, p)
    requires !InWindow(tm, t, das, arr) && !keys.right && !keys.left
    ensures keys.down ==>
      KeyDownStep(b, c, p, tm, t, das, arr, keys, next) == (FallStep(b, c, p, next), Timing(t, tm.heldCount, tm.lastMove))
    ensures !keys.down ==>
      KeyDownStep(b, c, p, tm, t, das, arr, keys, next) == (State(b, p), Timing(tm.lastInput, 0, tm.lastMove))
  {
  }

  /** keyDown keeps the game playable. */
  lemma KeyDownKeepsPlayable(b: Board, c: Catalog, p: Piece, tm: Timing, t: real, das: real, arr: real,
                             keys: Held, next: Kind)
    requires Playable(c, State(b, p))
    ensures Playable(c, KeyDownStep(b, c, p, tm, t, das, arr, keys, next).0)
  {
    var s := PieceShape(c, p);
    if !InWindow(tm, t, das, arr) {
      if keys.right {
        if !Collides(b, s, p.x + 1, p.y) {
          FreeIsInBounds(b, s, p.x + 1, p.y);
        }
      } else if keys.left {
        if !Collides(b, s, p.x - 1, p.y) {
          FreeIsInBounds(b, s, p.x - 1, p.y);
        }
      } else if keys.down {
        KeyStepKeepsPlayable(b, c, p, false, DownArrow, next);
      }
    }
  }

  /** The character keys of inputs.js ignore case, and W and X turn the block exactly
      as the upper-case keys of tetrisjs.js do. */
  lemma PressIgnoresCase(b: Board, c: Catalog, p: Piece, f: Flags, t: real, next: Kind)
    requires IsGrid(b.rows) && CatalogFits(c) && Placed(c, p)
    ensures PressStep(b, c, p, f, 'p', t) == PressStep(b, c, p, f, 'P', t)
    ensures PressStep(b, c, p, f, 'w', t) == PressStep(b, c, p, f, 'W', t)
    ensures PressStep(b, c, p, f, 'x', t) == PressStep(b, c, p, f, 'X', t)
    ensures PressStep(b, c, p, f, 'd', t) == PressStep(b, c, p, f, 'D', t)
    ensures PressStep(b, c, p, f, 'W', t).0 == KeyStep(b, c, p, f.paused, Typed('W'), next).0.block
    ensures PressStep(b, c, p, f, 'X', t).0 == KeyStep(b, c, p, f.paused, Typed('X'), next).0.block
  {
  }

  /** Rotation is not gated by the pause, and keyPressed keeps the block placed on the
      board. */
  lemma PressKeepsPlayable(b: Board, c: Catalog, p: Piece, f: Flags, key: char, t: real)
    requires Playable(c, State(b, p))
    ensures Playable(c, State(b, PressStep(b, c, p, f, key, t).0))
    ensures PressStep(b, c, p, f, key, t).0 == PressStep(b, c, p, f.(paused := !f.paused), key, t).0
  {
    if key == 'w' || key == 'W' || key == 'x' || key == 'X' {
      var cw := key == 'x' || key == 'X';
      KeyStepKeepsPlayable(b, c, p, false, Typed(if cw then 'X' else 'W'), T);
    }
  }

  /** The globals of inputs.js. The pause flag is the game's; DAS and ARR are the
      repeat thresholds the engine is configured with. */
  class Controls {
    var lastInput: real
    var inputHeldCount: int
    var lastRegisteredMove: Option<Move>
    var lastTime: real
    var debug: bool
    const das: real
    const arr: real

    function RepeatState(): Timing
      reads this`lastInput, this`inputHeldCount, this`lastRegisteredMove
    {
      Timing(lastInput, inputHeldCount, lastRegisteredMove)
    }

    constructor (das: real, arr: real)
      ensures this.das == das && this.arr == arr
      ensures RepeatState() == Timing(0.0, 0, None) && lastTime == 0.0 && !debug
    {
      this.das := das;
      this.arr := arr;
      lastInput := 0.0;
      inputHeldCount := 0;
      lastRegisteredMove := None;
      lastTime := 0.0;
      debug := false;
    }

    /** keyDown: called every frame with the current time and the arrow keys held. */
    method KeyDown(game: Game, t: real, keys: Held, next: Kind)
      requires game.Valid()
      modifies this`lastInput, this`inputHeldCount, this`lastRegisteredMove, game, game.board
      ensures game.Valid() && game.board == old(game.board) && game.paused == old(game.paused)
      ensures (State(game.View(), game.block), RepeatState())
           == KeyDownStep(old(game.View()), game.catalog, old(game.block), old(RepeatState()), t, das, arr, keys, next)
    {
      var delay := if inputHeldCount == 1 then das else arr;
      if lastInput > 0.0 && t - lastInput < delay {
        return;
      }
      if keys.right || keys.left {
        SideMove(game, keys, t, next);
      } else if keys.down {
        game.Fall(next);
        lastInput := t;
      } else {
        inputHeldCount := 0;
      }
    }

    /** The right and left branches of keyDown, past the gate: when the block moves,
      the time, one more held input and the move kind are recorded. */
    method SideMove(game: Game, keys: Held, t: real, next: Kind)
      requires game.Valid() && (keys.right || keys.left) && !InWindow(RepeatState(), t, das, arr)
      modifies this`lastInput, this`inputHeldCount, this`lastRegisteredMove, game`block
      ensures game.Valid()
      ensures (State(game.View(), game.block), RepeatState())
           == KeyDownStep(game.View(), game.catalog, old(game.block), old(RepeatState()), t, das, arr, keys, next)
    {
      var dx := if keys.right then 1 else -1;
      var moved := game.Shift(dx);
      if moved {
        lastInput := t;
        inputHeldCount := inputHeldCount + 1;
        lastRegisteredMove := Some(if keys.right then MoveRight else MoveLeft);
      }
    }

    /** keyReleased: the held count is reset, unless paused or over. */
    method KeyReleased(game: Game, gameOver: bool)
      modifies this`inputHeldCount
      ensures inputHeldCount == if !game.paused && !gameOver then 0 else old(inputHeldCount)
    {
      if !game.paused && !gameOver {
        inputHeldCount := 0;
      }
    }

    /** keyPressed of inputs.js, for the P, W, X and D keys in either case. */
    method KeyPressed(game: Game, key: char, t: real)
      requires game.Valid()
      modifies this`lastTime, this`debug, game`paused, game`block
      ensures game.Valid()
      ensures (game.block, Flags(game.paused, debug, lastTime))
           == PressStep(game.View(), game.catalog, old(game.block), old(Flags(game.paused, debug, lastTime)), key, t)
    {
      if key == 'p' || key == 'P' {
        game.paused := !game.paused;
        lastTime := t;
      } else if key == 'w' || key == 'W' {
        var tmp := game.block.rot - 1;
        if tmp < 0 { tmp := |game.catalog.blocks[game.block.kind]| - 1; }
        assert tmp == TurnTarget(game.catalog, game.block, false);
        var ok := game.SrsKickTest(false, game.block.rot, tmp);
      } else if key == 'x' || key == 'X' {
        assert (game.block.rot + 1) % 4 == TurnTarget(game.catalog, game.block, true);
        var ok := game.SrsKickTest(true, game.block.rot, (game.block.rot + 1) % 4);
      } else if key == 'd' || key == 'D' {
        debug := !debug;
      }
    }
  }
}
