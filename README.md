# A verified model of the tetrisjs game logic

This project models the game logic of a small browser Tetris engine. The engine keeps
its state in globals: a 10 x 20 column-major `board[x][y]` of 0/1 cells, the falling
`block` (position, type, rotation state) and the `pause` flag. The model covers what
the engine does with that state in `tetrisjs.js`:

- board initialisation and spawning;
- the collision test, and `getHighestEmptyY`;
- landing a block;
- line clearing: `checkClear`, `clearLine` and `blockFall`;
- gravity (`fall`) and the hard drop (`quickFall`);
- rotation with Super Rotation System kick candidates (`srsKickTest`);
- the key handler.

It also models the keyboard layer of `inputs.js`:

- the held-key auto-repeat gate `keyDown`, with its DAS threshold (the first repeat
  of a held move) and its ARR threshold (later repeats);
- the held-count reset `keyReleased`;
- the character keys of its `keyPressed`.

Modules:

- `Pieces` (pieces.dfy) holds the piece catalog. The engine loads it from its data
  file: shape matrices per type and rotation state, and the kick tables `kick` and
  `kickI`. The catalog is a parameter of the model, and `CatalogOk` states what the
  engine needs of it. The module also holds the rotation-target arithmetic of the W and
  X keys.
- `Playfield` (playfield.dfy) holds the board as a value, `Board(rows, above)`, and the
  geometric rules on it:
  - collision (`Collides`);
  - the board after landing (`Landed`);
  - where a hard drop stops (`LandingRow`);
  - which kick candidate a rotation takes (`KickIndex`, `Kick`).
- `LineClear` (lineclear.dfy) holds the line-clearing sweep.
  - `Sweep` tests each row as it was on entry; `SweepStep` proves that this is the
    row the code tests on the board as it has become.
  - `CompactedClosedForm` states its result: as many copies of the top row as there
    were full rows, then the rows that were not full, in order.
- `Tetris` (tetris.dfy) holds the class `Game`. Its fields are the engine's globals,
  with the board as an `array2<int>` indexed `board[x, y]`. Every method is proved
  against the functions above, through `View()`, the board seen as rows.
  - The pure functions `FallStep`, `DropStep` and `KeyStep` state each operation on
    values.
  - The lemmas show that every step keeps the game playable.
- `Inputs` (inputs.dfy) holds the class `Controls`, with the globals of inputs.js. It
  acts on a `Game`. The time `millis()` returned and the `keyIsDown` flags are
  parameters.

Landing can write cells above the top row, because spawning puts the block at row -3.
In the engine those writes become extra entries of the column arrays. The drawing and
line-clearing loops never see them, but the collision test reads them. The model keeps
them in `Board.above`.

Blocks spawn without a collision test, so "the block does not overlap the stack" is
not an invariant. The game invariant `Game.Valid()` says three things:

- the board is 0/1 and of the right size;
- the catalog is usable;
- the block lies within the board columns and above the floor.

This is what `land` needs to stay inside the array.

## Model

| member | source | states |
|---|---|---|
| Pieces.ShapeOf | tetrisjs.js:37-39 | getShape of a well-formed catalog is a square 0/1 matrix with at least one occupied cell |
| Pieces.TargetsInRange | tetrisjs.js:236-243 | the W target (rot - 1, wrapping to the last state) and the X target ((rot + 1) % 4) are rotation states of a type with at least four states |
| Pieces.TargetsAreInverse | tetrisjs.js:237-242 | with four states, W is rot + 3 modulo 4, and W and X undo each other |
| Playfield.Collides | tetrisjs.js:129-138 | the collision test: some occupied cell of the shape is off the board sideways, below the floor, or on a filled cell (cells written above the top included); its consequences are stated by FreeIsInBounds and FreeIsAboveFloor |
| Playfield.FreeIsInBounds | tetrisjs.js:129-138 | a placement the collision test accepts has every occupied cell in a board column and above the floor |
| Playfield.FreeIsAboveFloor | tetrisjs.js:129-138 | a free placement of a shape with a cell starts above the floor, so a falling block cannot pass it |
| Playfield.NegativeRowBlocksOnlySideways | tetrisjs.js:133 | on a board with nothing written above the top, a cell in a negative row collides exactly when its column is off the board |
| Playfield.Landed | tetrisjs.js:118-127 | the landed board is again H rows of W cells |
| Playfield.LandedCells | tetrisjs.js:118-127 | land makes a cell filled exactly when it was filled or lies under an occupied shape cell; cells on the board become 1 or keep their value; the cells above the top grow by exactly the covered ones; a 0/1 board stays 0/1 |
| Playfield.LandFillsOnlyEmptyCells | tetrisjs.js:118-127 | from a free placement, land overwrites only cells that were 0 (or unwritten above the top), and the board stays 0/1 |
| Playfield.LandedPlacementCollides | tetrisjs.js:118-138 | after landing, the landed placement itself collides, because the collision test reads every written cell, those above the top included |
| Playfield.LandingRow | tetrisjs.js:151-153 | the hard-drop row is at or below the start row |
| Playfield.LandingRowIsFirstContact | tetrisjs.js:151-153 | one row below the landing row collides, and every row from just below the start down to the landing row is free |
| Playfield.FirstFree | tetrisjs.js:163-171 | the chosen candidate index lies in the candidate list, at or after the starting index |
| Playfield.FirstFreeIsFirstFit | tetrisjs.js:163-171 | the chosen candidate is free and every earlier one collides; with no choice, every candidate collides |
| Playfield.KickIndex | tetrisjs.js:159-164 | the kick taken is an index of the table `kickI` for the I piece, `kick` otherwise, at the source rotation and direction |
| Playfield.Kick | tetrisjs.js:159-172 | srsKickTest keeps the block's type, and a block it changes has the target rotation (the placement is stated by KickLandsFree) |
| Playfield.KickLandsFree | tetrisjs.js:159-172 | a failed rotation leaves the block unchanged and every candidate collided; a successful one keeps the type, sets the rotation to the target, and puts the block on a free placement whose offset is a table candidate |
| LineClear.SweptTo | tetrisjs.js:177-190 | the board after the sweep has passed rows 0 .. y-1 has the board's height |
| LineClear.Sweep | tetrisjs.js:177-190 | the sweep as written keeps the board's height |
| LineClear.Compacted | tetrisjs.js:174-194 | checkClear keeps the board's height |
| LineClear.ShiftedDown | tetrisjs.js:196-202 | blockFall keeps the height; for 1 <= yMax < H it drops row yMax and repeats row 0 on top: row 0, then rows 0 .. yMax - 1, then the rows below yMax |
| LineClear.SweepStep | tetrisjs.js:184-186 | one row of the sweep: the row met is still as it was on entry; if full, clearLine then blockFall take the closed form at y to the closed form at y + 1; otherwise nothing changes |
| LineClear.SweepClosedForm | tetrisjs.js:177-190 | the sweep as written equals its closed form at every row |
| LineClear.CompactedClosedForm | tetrisjs.js:174-194 | checkClear leaves as many copies of the top row as there were full rows, followed by the rows that were not full, in order |
| LineClear.SweepSkipsOpenRows | tetrisjs.js:184-189 | rows that are not full do not change the sweep |
| LineClear.NoFullRowAfterClear | tetrisjs.js:174-194 | after checkClear the board has its size, no row is full, and a 0/1 board stays 0/1 |
| LineClear.ClearWithoutFullRowIsIdentity | tetrisjs.js:174-194 | on a board with no full row, checkClear changes nothing |
| LineClear.ClearIsIdempotent | tetrisjs.js:174-194 | a second checkClear changes nothing |
| LineClear.RowsBelowLastFullUntouched | tetrisjs.js:174-194 | rows below the lowest full row are not touched |
| LineClear.BottomTwoRowsCleared | tetrisjs.js:196-202 | clearing the two bottom rows leaves row 0's content in rows 0, 1 and 2, and row 17 in row 19: blockFall copies row 0 down instead of bringing in an empty row |
| Tetris.Shifted | tetrisjs.js:213-218 | a left or right move is taken exactly when the shifted placement is free; it changes only x, otherwise nothing changes |
| Tetris.Locked | tetrisjs.js:143-145 | a lock always spawns the next type, and cells written above the top are never removed |
| Tetris.FallStep | tetrisjs.js:140-149 | fall either moves the block one row down or locks and spawns the next type; the board changes only in the second case |
| Tetris.DropStep | tetrisjs.js:151-157 | quickFall always locks: the next type spawns, and cells written above the top are kept |
| Tetris.TurnTarget | tetrisjs.js:236-243 | the rotation target of W or X is a rotation state of the block's type |
| Tetris.KeyStep | tetrisjs.js:210-245 | the board changes only under the down and up arrows when not paused; the pause flag changes only under P; the block keeps its type unless a lock spawned the next one |
| Tetris.LockKeepsPlayable | tetrisjs.js:143-145 | land, clear and spawn keep the game playable and leave no full row |
| Tetris.KeyStepKeepsPlayable | tetrisjs.js:210-245 | every key keeps the game playable: moves, falls and kicks reach only free placements, and a lock spawns a block that fits at the spawn point |
| Tetris.PauseGatesArrows | tetrisjs.js:211-226 | while paused, the arrow keys change nothing |
| Tetris.RotationIgnoresPause | tetrisjs.js:227-243 | W and X turn the block the same way whether paused or not, and keep the pause flag |
| Tetris.Game.IsOne | tetrisjs.js:133 | the read `board[x][y] === 1` is the cell being filled, for negative rows too |
| Tetris.Game.InitBoard | tetrisjs.js:22-30 | a fresh W x H board of zeros, nothing above the top; block and pause untouched |
| Tetris.Game.SpawnNextBlock | tetrisjs.js:103-108 | the block becomes the given type at x = 5, y = -3, rotation 0; the board is unchanged |
| Tetris.Game.InitGame | tetrisjs.js:32-35 | an empty board and a freshly spawned block |
| Tetris.Game.constructor | tetrisjs.js:260-264 | the session after setup: catalog loaded, empty board, spawned block, not paused |
| Tetris.Game.CheckCollision | tetrisjs.js:129-138 | the result is true exactly when some occupied cell of the shape is off the board sideways, below the floor, or on a filled cell |
| Tetris.Game.GetHighestEmptyY | tetrisjs.js:110-116 | from row oy down, the last row before a filled cell or the floor in column x, with every row after oy up to it empty; oy itself when oy is below the board |
| Tetris.Game.Land | tetrisjs.js:118-127 | the board becomes the landed board of the block's shape at its position; the block, the pause flag and the array are kept |
| Tetris.Game.LandColumn | tetrisjs.js:121-124 | one column of land: its covered cells are written (to the array, or above the top), all others keep their value |
| Tetris.Game.ClearLine | tetrisjs.js:204-208 | row y becomes zeros and nothing else changes |
| Tetris.Game.BlockFall | tetrisjs.js:196-202 | rows 1 .. yMax take the old content of the row above them; row 0 and rows below yMax are kept |
| Tetris.Game.CheckClear | tetrisjs.js:174-194 | the board becomes the compacted board, and the result is the number of rows that were full on entry; its two arguments are ignored |
| Tetris.Game.Lock | tetrisjs.js:143-145 | land, clear and spawn: the new state is the locked state of the old one |
| Tetris.Game.Fall | tetrisjs.js:140-149 | if one row lower is free, only y goes up by one; otherwise the block is landed, lines are cleared and the next type spawns |
| Tetris.Game.QuickFall | tetrisjs.js:151-157 | the block drops to the landing row, keeping x and rotation, then locks |
| Tetris.Game.SrsKickTest | tetrisjs.js:159-172 | the result is true exactly when some candidate is free, and the block becomes the first-fit kick of the rotation; the board is unchanged |
| Tetris.Game.Shift | tetrisjs.js:213-218 | the block becomes the shifted block, and the result says whether the move was taken |
| Tetris.Game.KeyPressed | tetrisjs.js:210-245 | the new board, block and pause flag are those of the key step on the old state |
| Inputs.KeyDownStep | inputs.js:46-74 | the board changes only through the down branch past the gate; the held count is reset, kept or raised by one; lastInput is kept or becomes t |
| Inputs.PressStep | inputs.js:4-33 | the block changes only under W or X and keeps its type; the pause flag and lastTime change only under P, debug only under D |
| Inputs.RepeatGate | inputs.js:48-49 | inside the repeat window keyDown changes nothing; a call that changes the timing was let through by DAS exactly when the held count was 1, and by ARR otherwise |
| Inputs.RightTakesPriority | inputs.js:50-59 | with right held, left and down make no difference, and a blocked right move changes nothing (it does not fall through to left) |
| Inputs.LeftBeatsDown | inputs.js:59-68 | with right up and left held, down makes no difference |
| Inputs.SideMoveBookkeeping | inputs.js:50-67 | past the gate, a side move is taken exactly when free; then x moves by one, lastInput becomes t, the count goes up by one and the move kind is recorded; a blocked move changes nothing |
| Inputs.DownAndNoKey | inputs.js:68-73 | with only down held, one fall and lastInput := t, count kept; with nothing held, only the count is reset |
| Inputs.KeyDownKeepsPlayable | inputs.js:46-74 | keyDown keeps the game playable |
| Inputs.PressIgnoresCase | inputs.js:8-31 | each key acts the same in lower and upper case, and W and X turn the block as the keys of tetrisjs.js do |
| Inputs.PressKeepsPlayable | inputs.js:13-22 | rotation keeps the game playable and does not depend on the pause flag |
| Inputs.Controls.KeyDown | inputs.js:46-74 | the new game state and timing are those of the keyDown step on the old ones; the pause flag and the array are kept |
| Inputs.Controls.SideMove | inputs.js:50-67 | past the gate, the right or left branch: game and timing become those of the keyDown step |
| Inputs.Controls.KeyReleased | inputs.js:38-41 | the held count becomes 0 exactly when neither paused nor over, otherwise it is kept |
| Inputs.Controls.KeyPressed | inputs.js:4-33 | the new block, pause, debug and lastTime are those of the key step on the old ones |

## Left out

- Drawing: `drawBoard`, `drawBlock`, `drawBorders`, `drawPause`, `draw` and the whole of rendering.js. They only read the state.
- Loading the data file (`preload`, `loadJSON`). The catalog is a parameter, and `CatalogFits` is what the model requires of it: every type present with at least four rotation states, square 0/1 shapes each with an occupied cell, kick tables long enough, and every type fitting at the spawn point.
- The gravity timer: `setInterval`/`clearInterval` in `setup` and under the P key. Host scheduling is outside the model; `Fall` is the step the timer runs.
- `random(TYPES)` in `spawnNextBlock`. The type drawn is a parameter (`next`, `kind`).
- `console.log` in `checkClear`.
- `update()`. Nothing calls it; its only call in `draw` is commented out.
- The return values of `land` (always true) and of `srsKickTest` in the key handlers. They are ignored; `SrsKickTest` still returns its result.
- Tetris.Game.KeyPressed: the engine tests the arrows (gated by the pause) and then the typed character in two separate switches. A key event is one or the other, so the model takes one `KeyEvent`.
- Tetris.Game.Land: requires the block's occupied cells to lie in board columns and above the floor, a part of `Valid()`. In the engine a write to a column outside the board fails, and a write at a row at or below the floor would silently lengthen the column array; neither is modelled. `Valid()` holds of every reachable state: blocks only move to placements the collision test accepts, and every type fits at the spawn point (`CatalogFits`).
- Numbers: the engine's coordinates are JavaScript numbers taking small integer values, modelled as `int`. The time from `millis()` is a `real`.
- Inputs.Controls.KeyPressed: the R key (`initGame` of that engine version) and the C key (`swap`) are treated as no-ops, like every other key it does not handle; the same holds of `Inputs.PressStep`.
- inputs.js belongs to a later revision of the engine (buffer rows above the board, colour-valued cells, a lock delay, `gameOver`). Its calls to `fall`, `checkCollision` and `srsKickTest` are modelled by the tetrisjs.js definitions (`FallStep`, `Collides`, `Kick`); that revision's own versions of them are not part of this model.
- In inputs.js: the hard drop under the up arrow (`hardDrop`), `resetLockDelay`, `hasLanded`, the R key (`initGame` of that engine version) and the C key (`swap`). These functions are not part of the files, so their effects are not modelled.
- The `gameOver` flag of inputs.js is a parameter of `KeyReleased`. Nothing in the files sets it.
- Inputs.Controls.constructor: the initial values of the inputs.js globals (`lastInput`, `inputHeldCount`, `lastRegisteredMove`, `lastTime`, `debug`) and the DAS and ARR values are not part of the files. The constructor takes DAS and ARR as arguments and starts the rest from zero, no move, and debug off.
- Aliasing of the engine's shared `block` object is not modelled: it is a field holding a value.
