/**
 * The piece catalog: the seven tetromino types, their colour tags and rotation
 * lists, and the empty piece that stands for "nothing held".
 *
 * The I, S and T rotation matrices and the empty piece's matrix are given
 * literally. The J, L, O and Z matrices are supplied by a `Catalog` value
 * constrained by what is known of them: rotation counts 4, 4, 1 and 2, 4x4
 * matrices, exactly four blocks per matrix, all carrying the type's tag.
 */
module Pieces {
  import opened MatrixOperations

  /** The seven tetromino types, in declaration order. */
  datatype BrickType = I | J | L | O | S | T | Z

  /** Every type, in declaration order. */
  const AllTypes: seq<BrickType> := [I, J, L, O, S, T, Z]

  /** A piece: one of the seven tetrominoes, or the empty piece (a singleton in the game). */
  datatype Brick = Tetromino(kind: BrickType) | NullBrick

  /** The colour tag written into every block of a type's matrices. */
  function Tag(t: BrickType): int
  {
    match t
    case I => 1
    case J => 2
    case L => 3
    case O => 4
    case S => 5
    case T => 6
    case Z => 7
  }

  /** The number of rotation states of each type. */
  function RotationCount(t: BrickType): nat
  {
    match t
    case I => 2
    case J => 4
    case L => 4
    case O => 1
    case S => 2
    case T => 4
    case Z => 2
  }

  /** A 4x4 matrix. */
  predicate Is4x4(g: Grid)
  {
    |g| == 4 && Rect(g, 4)
  }

  /** A tetromino rotation state: 4x4, exactly four blocks, every block carrying the tag. */
  predicate WellFormedShape(g: Grid, tag: int)
  {
    Is4x4(g) && CountNonZero(g) == 4 &&
    forall i, j :: 0 <= i < 4 && 0 <= j < 4 && g[i][j] != 0 ==> g[i][j] == tag
  }

  /** Every matrix of a rotation list is a well-formed shape with the tag. */
  predicate WellFormedShapes(shapes: seq<Grid>, tag: int)
  {
    forall k :: 0 <= k < |shapes| ==> WellFormedShape(shapes[k], tag)
  }

  /** The rotation lists of the types whose matrices are not listed here. */
  datatype Catalog = Catalog(j: seq<Grid>, l: seq<Grid>, o: seq<Grid>, z: seq<Grid>)

  /** What is known of the J, L, O and Z rotation lists. */
  predicate ValidCatalog(c: Catalog)
  {
    |c.j| == RotationCount(J) && WellFormedShapes(c.j, Tag(J)) &&
    |c.l| == RotationCount(L) && WellFormedShapes(c.l, Tag(L)) &&
    |c.o| == RotationCount(O) && WellFormedShapes(c.o, Tag(O)) &&
    |c.z| == RotationCount(Z) && WellFormedShapes(c.z, Tag(Z))
  }

  /** The I piece: a horizontal bar in row 1, then a vertical bar in column 1. */
  const IShapes: seq<Grid> := [
    [[0, 0, 0, 0],
     [1, 1, 1, 1],
     [0, 0, 0, 0],
     [0, 0, 0, 0]],
    [[0, 1, 0, 0],
     [0, 1, 0, 0],
     [0, 1, 0, 0],
     [0, 1, 0, 0]]
  ]

  /** The S piece's two rotation states. */
  const SShapes: seq<Grid> := [
    [[0, 0, 0, 0],
     [0, 5, 5, 0],
     [5, 5, 0, 0],
     [0, 0, 0, 0]],
    [[5, 0, 0, 0],
     [5, 5, 0, 0],
     [0, 5, 0, 0],
     [0, 0, 0, 0]]
  ]

  /** The T piece's four rotation states. */
  const TShapes: seq<Grid> := [
    [[0, 0, 0, 0],
     [6, 6, 6, 0],
     [0, 6, 0, 0],
     [0, 0, 0, 0]],
    [[0, 6, 0, 0],
     [0, 6, 6, 0],
     [0, 6, 0, 0],
     [0, 0, 0, 0]],
    [[0, 6, 0, 0],
     [6, 6, 6, 0],
     [0, 0, 0, 0],
     [0, 0, 0, 0]],
    [[0, 6, 0, 0],
     [6, 6, 0, 0],
     [0, 6, 0, 0],
     [0, 0, 0, 0]]
  ]

  /** The empty piece's single, all-zero rotation state. */
  const NullShapes: seq<Grid> := [Zeros(4, 4)]

  /** The rotation list of a piece, as a fresh copy of the piece's own list. */
  function ShapeMatrix(c: Catalog, b: Brick): (r: seq<Grid>)
    requires ValidCatalog(c)
    ensures b.Tetromino? ==> |r| == RotationCount(b.kind) && WellFormedShapes(r, Tag(b.kind))
    ensures b.NullBrick? ==> |r| == 1 && Is4x4(r[0]) && !HasBlock(r[0])
  {
    match b
    case NullBrick => NullBrickFacts(); DeepCopyList(NullShapes)
    case Tetromino(t) =>
      match t
      case I => IBrickFacts(); DeepCopyList(IShapes)
      case J => DeepCopyList(c.j)
      case L => DeepCopyList(c.l)
      case O => DeepCopyList(c.o)
      case S => SBrickFacts(); DeepCopyList(SShapes)
      case T => TBrickFacts(); DeepCopyList(TShapes)
      case Z => DeepCopyList(c.z)
  }

  /** The factory: every type yields a piece of that type. */
  function CreateBrick(t: BrickType): (b: Brick)
    ensures b != NullBrick && b.kind == t
  {
    Tetromino(t)
  }

  /** One piece of every type, in declaration order. */
  function CreateAllBricks(): (r: seq<Brick>)
    ensures |r| == 7
    ensures forall k :: 0 <= k < 7 ==> r[k] == CreateBrick(AllTypes[k])
  {
    [CreateBrick(I), CreateBrick(J), CreateBrick(L), CreateBrick(O), CreateBrick(S), CreateBrick(T), CreateBrick(Z)]
  }

  /** The list of all pieces holds every type and never the empty piece. */
  lemma AllBricksOneOfEach(t: BrickType)
    ensures CreateBrick(t) in CreateAllBricks()
    ensures NullBrick !in CreateAllBricks()
    ensures forall a, b :: 0 <= a < b < 7 ==> CreateAllBricks()[a] != CreateAllBricks()[b]
  {
    var all := CreateAllBricks();
    assert all == [Tetromino(I), Tetromino(J), Tetromino(L), Tetromino(O), Tetromino(S), Tetromino(T), Tetromino(Z)];
  }

  /** The type declaration has exactly seven values, in the order I, J, L, O, S, T, Z. */
  lemma AllTypesComplete(t: BrickType)
    ensures |AllTypes| == 7 && t in AllTypes
    ensures forall a, b :: 0 <= a < b < 7 ==> AllTypes[a] != AllTypes[b]
  {
  }

  /** Different types carry different tags, all between 1 and 7. */
  lemma TagsDistinct(a: BrickType, b: BrickType)
    ensures 1 <= Tag(a) <= 7
    ensures Tag(a) == Tag(b) <==> a == b
  {
  }

  /** 1 for a block, 0 for an empty cell. */
  function Block(v: int): nat
  {
    if v != 0 then 1 else 0
  }

  lemma RowNonZero4(row: seq<int>)
    requires |row| == 4
    ensures RowNonZero(row) == Block(row[0]) + Block(row[1]) + Block(row[2]) + Block(row[3])
  {
    assert RowNonZero(row) == RowNonZero(row[..3]) + Block(row[3]);
    assert row[..3][..2] == row[..2];
    assert RowNonZero(row[..3]) == RowNonZero(row[..2]) + Block(row[2]);
    assert row[..2][..1] == row[..1];
    assert RowNonZero(row[..2]) == RowNonZero(row[..1]) + Block(row[1]);
    assert row[..1][..0] == [];
    assert RowNonZero(row[..1]) == Block(row[0]);
  }

  /** The block count of a 4x4 matrix, cell by cell. */
  lemma CountNonZero4x4(g: Grid)
    requires Is4x4(g)
    ensures CountNonZero(g) ==
      Block(g[0][0]) + Block(g[0][1]) + Block(g[0][2]) + Block(g[0][3]) +
      Block(g[1][0]) + Block(g[1][1]) + Block(g[1][2]) + Block(g[1][3]) +
      Block(g[2][0]) + Block(g[2][1]) + Block(g[2][2]) + Block(g[2][3]) +
      Block(g[3][0]) + Block(g[3][1]) + Block(g[3][2]) + Block(g[3][3])
  {
    RowNonZero4(g[0]);
    RowNonZero4(g[1]);
    RowNonZero4(g[2]);
    RowNonZero4(g[3]);
    assert CountNonZero(g) == CountNonZero(g[..3]) + RowNonZero(g[3]);
    assert g[..3][..2] == g[..2];
    assert CountNonZero(g[..3]) == CountNonZero(g[..2]) + RowNonZero(g[2]);
    assert g[..2][..1] == g[..1];
    assert CountNonZero(g[..2]) == CountNonZero(g[..1]) + RowNonZero(g[1]);
    assert g[..1][..0] == [];
    assert CountNonZero(g[..1]) == RowNonZero(g[0]);
  }

  /** The I piece has two well-formed states with tag 1: the row-1 bar and the column-1 bar. */
  lemma IBrickFacts()
    ensures |IShapes| == 2 && WellFormedShapes(IShapes, 1)
    ensures IShapes[0][1] == [1, 1, 1, 1]
    ensures forall r :: 0 <= r < 4 ==> IShapes[1][r][1] == 1
    ensures IShapes[0] != IShapes[1]
  {
    CountNonZero4x4(IShapes[0]);
    CountNonZero4x4(IShapes[1]);
    assert IShapes[0][0][1] != IShapes[1][0][1];
  }

  /** The S piece has two distinct well-formed states with tag 5. */
  lemma SBrickFacts()
    ensures |SShapes| == 2 && WellFormedShapes(SShapes, 5)
    ensures SShapes[0] != SShapes[1]
  {
    CountNonZero4x4(SShapes[0]);
    CountNonZero4x4(SShapes[1]);
    assert SShapes[0][0][0] != SShapes[1][0][0];
  }

  /** The T piece has four pairwise distinct well-formed states with tag 6. */
  lemma TBrickFacts()
    ensures |TShapes| == 4 && WellFormedShapes(TShapes, 6)
    ensures forall a, b :: 0 <= a < b < 4 ==> TShapes[a] != TShapes[b]
  {
    CountNonZero4x4(TShapes[0]);
    CountNonZero4x4(TShapes[1]);
    CountNonZero4x4(TShapes[2]);
    CountNonZero4x4(TShapes[3]);
    assert TShapes[0][0][1] != TShapes[1][0][1];
    assert TShapes[0][0][1] != TShapes[2][0][1];
    assert TShapes[0][0][1] != TShapes[3][0][1];
    assert TShapes[1][1][0] != TShapes[2][1][0];
    assert TShapes[1][1][2] != TShapes[3][1][2];
    assert TShapes[2][1][2] != TShapes[3][1][2];
  }

  /** The empty piece has one 4x4 state without any block. */
  lemma NullBrickFacts()
    ensures |NullShapes| == 1 && Is4x4(NullShapes[0])
    ensures forall i, j :: 0 <= i < 4 && 0 <= j < 4 ==> NullShapes[0][i][j] == 0
    ensures !HasBlock(NullShapes[0]) && CountNonZero(NullShapes[0]) == 0
  {
    CountNonZero4x4(NullShapes[0]);
  }

  /** Every state of every tetromino has a block, so only the empty piece is blank. */
  lemma TetrominoShapesHaveBlocks(c: Catalog, t: BrickType, k: int)
    requires ValidCatalog(c) && 0 <= k < RotationCount(t)
    ensures HasBlock(ShapeMatrix(c, Tetromino(t))[k])
  {
    CountNonZeroHasBlock(ShapeMatrix(c, Tetromino(t))[k]);
  }

  /** A well-formed shape's blocks all lie inside its 4x4 frame. */
  lemma ShapeBlocksInFrame(g: Grid, tag: int, i: int, j: int)
    requires WellFormedShape(g, tag)
    requires 0 <= i < |g| && 0 <= j < |g[i]|
    ensures 0 <= i < 4 && 0 <= j < 4
  {
  }
}
