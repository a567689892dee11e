/** The piece catalog the engine reads from its data file: shape matrices per piece
    type and rotation state, and the two Super Rotation System kick tables. The data
    itself is a parameter of the model; this module states what a usable catalog is
    and the rotation-index arithmetic of the W and X keys. */
module Pieces {

  /** The seven piece types of the TYPES list. */
  datatype Kind = T | O | I | S | Z | J | L

  /** The falling block: its top-left bounding-box corner (x, y), its type and its
      rotation state. */
  datatype Piece = Piece(x: int, y: int, kind: Kind, rot: nat)

  /** A shape matrix, indexed shape[row][column] as in the data file. */
  type Shape = seq<seq<int>>

  /** A kick candidate (dx, dy), added to the block's position. */
  datatype Offset = Offset(dx: int, dy: int)

  /** The candidates tried when leaving one rotation state, per direction. */
  datatype Kicks = Kicks(cw: seq<Offset>, ccw: seq<Offset>)

  /** The data file: `blocks` per type, the table `kick` for every type but I,
      and `kickI` for the I piece; both tables are indexed by the source rotation. */
  datatype Catalog = Catalog(blocks: map<Kind, seq<Shape>>, kick: seq<Kicks>, kickI: seq<Kicks>)

  /** Square, with 0/1 entries. */
  predicate IsShape(s: Shape) {
    forall r :: 0 <= r < |s| ==> |s[r]| == |s| && forall c :: 0 <= c < |s| ==> s[r][c] == 0 || s[r][c] == 1
  }

  /** At least one occupied cell. */
  predicate HasCell(s: Shape) {
    exists r, c :: 0 <= r < |s| && 0 <= c < |s[r]| && s[r][c] == 1
  }

  /** The kick table the rotation test reads: kickI for the I piece, kick otherwise. */
  function Table(c: Catalog, k: Kind): seq<Kicks> {
    if k == I then c.kickI else c.kick
  }

  /** What the core needs of the data file. Every type has at least four rotation
      states, because the X key targets (rot + 1) % 4; the kick table of the type has
      an entry for every rotation state it may rotate from. */
  predicate CatalogOk(c: Catalog) {
    forall k: Kind ::
      k in c.blocks
      && 4 <= |c.blocks[k]|
      && |c.blocks[k]| <= |Table(c, k)|
      && forall r :: 0 <= r < |c.blocks[k]| ==> IsShape(c.blocks[k][r]) && HasCell(c.blocks[k][r])
  }

  /** getShape: the matrix of a type in a rotation state. */
  function ShapeOf(c: Catalog, k: Kind, rot: nat): (s: Shape)
    requires CatalogOk(c) && rot < |c.blocks[k]|
    ensures IsShape(s) && HasCell(s)
  {
    c.blocks[k][rot]
  }

  /** The candidate list for leaving rotation `init` in the given direction. */
  function Tests(c: Catalog, k: Kind, init: nat, clockwise: bool): seq<Offset>
    requires init < |Table(c, k)|
  {
    if clockwise then Table(c, k)[init].cw else Table(c, k)[init].ccw
  }

  /** Target of the X key. */
  function CwTarget(rot: nat): nat {
    (rot + 1) % 4
  }

  /** Target of the W key: one state back, wrapping from 0 to the type's last state. */
  function CcwTarget(rot: nat, states: nat): nat
    requires rot < states
  {
    if rot == 0 then states - 1 else rot - 1
  }

  /** Both targets are rotation states of a type with `states` >= 4 states. */
  lemma TargetsInRange(rot: nat, states: nat)
    requires rot < states && 4 <= states
    ensures CwTarget(rot) < states
    ensures CcwTarget(rot, states) < states
  {
  }

  /** With the four states of the shipped data, W is the quarter turn back in
      arithmetic modulo 4, and W and X undo each other. */
  lemma TargetsAreInverse(rot: nat)
    requires rot < 4
    ensures CcwTarget(rot, 4) == (rot + 3) % 4
    ensures CcwTarget(CwTarget(rot), 4) == rot
    ensures CwTarget(CcwTarget(rot, 4)) == rot
  {
  }
}
