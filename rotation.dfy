/**
 * The rotation cursor: the piece being steered and an index into its
 * rotation list. Setters are checked; the peek at the next rotation does not
 * move the cursor.
 */
module Rotation {
  import opened Wrappers
  import opened MatrixOperations
  import opened Pieces

  /** The next rotation state and its index. */
  datatype NextBrickInfo = NextBrickInfo(shape: Grid, position: int)

  /** The index after one step of the cursor through a list of n rotations. */
  function NextIndex(i: nat, n: nat): nat
    requires n > 0
  {
    (i + 1) % n
  }

  /** The index reached from 0 after k committed steps. */
  function Cycle(n: nat, k: nat): nat
    requires n > 0
  {
    if k == 0 then 0 else NextIndex(Cycle(n, k - 1), n)
  }

  /** The first n - 1 steps from 0 visit the indices in order, and step n returns to 0. */
  lemma {:induction false} CycleVisitsAll(n: nat, k: nat)
    requires n > 0 && k <= n
    ensures Cycle(n, k) == if k == n then 0 else k
  {
    if k > 0 {
      CycleVisitsAll(n, k - 1);
      assert Cycle(n, k) == NextIndex(k - 1, n);
      if k < n {
        ModOfSmall(k, n);
      } else {
        ModOfSelf(n);
      }
    }
  }

  lemma ModOfSmall(a: int, n: int)
    requires 0 <= a < n
    ensures a % n == a
  {
  }

  lemma ModOfSelf(n: int)
    requires 0 < n
    ensures n % n == 0
  {
  }

  /** The cursor is periodic: n more steps lead back to the same index. */
  lemma {:induction false} CyclePeriodic(n: nat, k: nat)
    requires n > 0
    ensures Cycle(n, k + n) == Cycle(n, k)
  {
    if k == 0 {
      CycleVisitsAll(n, n);
    } else {
      CyclePeriodic(n, k - 1);
      assert k + n - 1 == (k - 1) + n;
    }
  }

  class BrickRotator {
    /** The J, L, O and Z rotation lists the pieces are drawn from. */
    const catalog: Catalog
    /** The piece being steered; `None` until the first `SetBrick`. */
    var brick: Option<Brick>
    /** The index into the piece's rotation list. */
    var currentShape: int

    /** The number of rotation states of the piece. */
    function Count(): nat
      reads this
      requires ValidCatalog(catalog) && brick.Some?
    {
      |ShapeMatrix(catalog, brick.value)|
    }

    /** The index is never negative, and lies inside the rotation list once a piece is set. */
    ghost predicate Valid()
      reads this
    {
      ValidCatalog(catalog) && currentShape >= 0 &&
      (brick.Some? ==> currentShape < Count())
    }

    /** The matrix of the current rotation state. */
    function Shape(): Grid
      reads this
      requires Valid() && brick.Some?
    {
      ShapeMatrix(catalog, brick.value)[currentShape]
    }

    constructor(catalog: Catalog)
      requires ValidCatalog(catalog)
      ensures Valid()
      ensures this.catalog == catalog && brick == None && currentShape == 0
    {
      this.catalog := catalog;
      brick := None;
      currentShape := 0;
    }

    /** The current rotation state: 4x4, and with a block for every tetromino. */
    method GetCurrentShape() returns (shape: Grid)
      requires Valid() && brick.Some?
      ensures shape == ShapeMatrix(catalog, brick.value)[currentShape]
      ensures Is4x4(shape)
      ensures brick.value.Tetromino? ==> HasBlock(shape)
    {
      shape := ShapeMatrix(catalog, brick.value)[currentShape];
      if brick.value.Tetromino? {
        TetrominoShapesHaveBlocks(catalog, brick.value.kind, currentShape);
      }
    }

    /**
     * Moves the cursor to index i. A negative index is refused, and so is one
     * past the rotation list when a piece is set; a refused call changes nothing.
     */
    method SetCurrentShape(i: int) returns (o: Outcome)
      requires Valid()
      modifies this
      ensures Valid() && brick == old(brick)
      ensures o.IllegalArgument? <==> i < 0 || (brick.Some? && i >= Count())
      ensures i < 0 ==> o == IllegalArgument("Shape index cannot be negative")
      ensures i >= 0 && o.IllegalArgument? ==> o == IllegalArgument("Shape index out of bounds: " + NatToString(i))
      ensures currentShape == if o.Success? then i else old(currentShape)
    {
      if i < 0 {
        return IllegalArgument("Shape index cannot be negative");
      }
      if brick.Some? && i >= |ShapeMatrix(catalog, brick.value)| {
        return IllegalArgument("Shape index out of bounds: " + NatToString(i));
      }
      currentShape := i;
      return Success;
    }

    /** Installs a piece at rotation 0; a missing piece is refused and changes nothing. */
    method SetBrick(b: Option<Brick>) returns (o: Outcome)
      requires Valid()
      modifies this
      ensures Valid()
      ensures b == None ==> o == IllegalArgument("Brick cannot be null") && brick == old(brick) && currentShape == old(currentShape)
      ensures b != None ==> o == Success && brick == b && currentShape == 0
    {
      if b == None {
        return IllegalArgument("Brick cannot be null");
      }
      brick := b;
      currentShape := 0;
      return Success;
    }

    /** The piece being steered. */
    method GetBrick() returns (b: Option<Brick>)
      ensures b == brick
    {
      b := brick;
    }

    /**
     * The following rotation state, wrapping from the last to the first, with
     * its index; the cursor does not move.
     */
    method PeekNextShape() returns (info: NextBrickInfo)
      requires Valid() && brick.Some?
      ensures 0 <= info.position < Count()
      ensures info.position == NextIndex(currentShape, Count())
      ensures info.shape == ShapeMatrix(catalog, brick.value)[info.position]
    {
      var shapes := ShapeMatrix(catalog, brick.value);
      var nextShape := (currentShape + 1) % |shapes|;
      info := NextBrickInfo(shapes[nextShape], nextShape);
    }
  }

  /** Committing the peeked index is always accepted, so the cursor steps through the list. */
  lemma PeekedIndexAccepted(i: nat, n: nat)
    requires 0 <= i < n
    ensures 0 <= NextIndex(i, n) < n
    ensures NextIndex(i, n) == if i + 1 == n then 0 else i + 1
  {
  }
}
