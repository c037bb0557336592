/** The arena: the perimeter cells drawn as walls and the bounds derived from its size. */
module ArenaFactory {
  import opened Grid

  /** Inclusive bounds of the cells the snake's head may occupy. */
  datatype Bounds = Bounds(lowerX: int, lowerY: int, upperX: int, upperY: int)

  /** The cells the first loop of `build` pushes from column `x` on: a top and a bottom wall cell per column. */
  function TopBottom(x: int, size: int, length: int, height: int): seq<Cell>
    requires size > 0
    decreases length - x
  {
    if x < length then [Cell(x, 0), Cell(x, height)] + TopBottom(x + size, size, length, height)
    else []
  }

  /** The cells the second loop of `build` pushes from row `y` on: a left and a right wall cell per row. */
  function LeftRight(y: int, size: int, length: int, height: int): seq<Cell>
    requires size > 0
    decreases height - y
  {
    if y < height then [Cell(0, y), Cell(length, y)] + LeftRight(y + size, size, length, height)
    else []
  }

  /** Everything one call of `build` appends, in order, ending with the far corner. */
  function Perimeter(size: int, length: int, height: int): (r: seq<Cell>)
    requires size > 0
    ensures |r| > 0 && r[|r| - 1] == Cell(length, height)
    ensures length <= 0 && height <= 0 <==> |r| == 1
  {
    TopBottom(0, size, length, height) + LeftRight(0, size, length, height) + [Cell(length, height)]
  }

  /** Pushing the next top/bottom pair moves one column from the remaining cells to the pushed ones. */
  lemma TopBottomStep(pushed: seq<Cell>, x: int, size: int, length: int, height: int)
    requires size > 0 && x < length
    ensures pushed + [Cell(x, 0)] + [Cell(x, height)] + TopBottom(x + size, size, length, height)
         == pushed + TopBottom(x, size, length, height)
  {
  }

  /** Pushing the next left/right pair moves one row from the remaining cells to the pushed ones. */
  lemma LeftRightStep(pushed: seq<Cell>, y: int, size: int, length: int, height: int)
    requires size > 0 && y < height
    ensures pushed + [Cell(0, y)] + [Cell(length, y)] + LeftRight(y + size, size, length, height)
         == pushed + LeftRight(y, size, length, height)
  {
  }

  /** Every cell of the top/bottom walls lies on row 0 or row `height`, in a column in `[x, length)`. */
  lemma {:induction false} TopBottomOnWalls(x: int, size: int, length: int, height: int)
    requires size > 0
    ensures forall c :: c in TopBottom(x, size, length, height) ==>
      (c.y == 0 || c.y == height) && x <= c.x < length
    decreases length - x
  {
    if x < length {
      TopBottomOnWalls(x + size, size, length, height);
    }
  }

  /** Every cell of the side walls lies on column 0 or column `length`, in a row in `[y, height)`. */
  lemma {:induction false} LeftRightOnWalls(y: int, size: int, length: int, height: int)
    requires size > 0
    ensures forall c :: c in LeftRight(y, size, length, height) ==>
      (c.x == 0 || c.x == length) && y <= c.y < height
    decreases height - y
  {
    if y < height {
      LeftRightOnWalls(y + size, size, length, height);
    }
  }

  /** Starting `k` columns before `length`, the first loop pushes exactly two cells per column. */
  lemma {:induction false} TopBottomLength(k: nat, size: int, length: int, height: int)
    requires size > 0
    ensures |TopBottom(length - k * size, size, length, height)| == 2 * k
  {
    if k > 0 {
      assert length - k * size + size == length - (k - 1) * size;
      TopBottomLength(k - 1, size, length, height);
    }
  }

  /** Starting `k` rows before `height`, the second loop pushes exactly two cells per row. */
  lemma {:induction false} LeftRightLength(k: nat, size: int, length: int, height: int)
    requires size > 0
    ensures |LeftRight(height - k * size, size, length, height)| == 2 * k
  {
    if k > 0 {
      assert height - k * size + size == height - (k - 1) * size;
      LeftRightLength(k - 1, size, length, height);
    }
  }

  /** Every cell one `build` appends lies on one of the four border lines. */
  lemma PerimeterOnBorder(size: int, length: int, height: int)
    requires size > 0
    ensures forall c :: c in Perimeter(size, length, height) ==>
      c.x == 0 || c.x == length || c.y == 0 || c.y == height
  {
    TopBottomOnWalls(0, size, length, height);
    LeftRightOnWalls(0, size, length, height);
  }

  /** For an arena whose sides are whole numbers of cells, one `build` appends 2L/S + 2H/S + 1 cells. */
  lemma PerimeterLength(size: int, cols: nat, rows: nat)
    requires size > 0
    ensures |Perimeter(size, cols * size, rows * size)| == 2 * cols + 2 * rows + 1
  {
    TopBottomLength(cols, size, cols * size, rows * size);
    LeftRightLength(rows, size, cols * size, rows * size);
  }

  /** The arena: `cells` is the wall list that `build` appends to; `size == 0` means not built yet. */
  class Arena {
    var cells: seq<Cell>
    var size: int
    var length: int
    var height: int

    constructor ()
      ensures cells == [] && size == 0 && !Built()
    {
      cells := [];
      size := 0;
      length := 0;
      height := 0;
    }

    /** The guard of `draw`: an arena whose size is unset (or zero) refuses to be drawn. */
    predicate Built()
      reads this
    {
      size != 0
    }

    /** Appends the perimeter cells to the wall list; nothing is ever removed from it. */
    method Build(size: int, length: int, height: int)
      requires size > 0
      modifies this
      ensures cells == old(cells) + Perimeter(size, length, height)
      ensures this.size == size && this.length == length && this.height == height
      ensures Built()
    {
      this.size := size;
      var x := 0;
      while x < length
        invariant this.size == size
        invariant cells + TopBottom(x, size, length, height) == old(cells) + TopBottom(0, size, length, height)
        decreases length - x
      {
        TopBottomStep(cells, x, size, length, height);
        cells := cells + [Cell(x, 0)];
        cells := cells + [Cell(x, height)];
        x := x + size;
      }
      var y := 0;
      while y < height
        invariant this.size == size
        invariant cells + LeftRight(y, size, length, height)
               == old(cells) + TopBottom(0, size, length, height) + LeftRight(0, size, length, height)
        decreases height - y
      {
        LeftRightStep(cells, y, size, length, height);
        cells := cells + [Cell(0, y)];
        cells := cells + [Cell(length, y)];
        y := y + size;
      }
      assert cells == old(cells) + TopBottom(0, size, length, height) + LeftRight(0, size, length, height);
      this.length := length;
      this.height := height;
      cells := cells + [Cell(length, height)];
    }

    /** The bounds one cell inside the walls: the walls at 0 and at `length`/`height` lie outside them. */
    function ArenaBounds(): (b: Bounds)
      reads this
      ensures size > 0 ==> 0 < b.lowerX && b.upperX < length && 0 < b.lowerY && b.upperY < height
      ensures b.lowerX == b.lowerY
    {
      Bounds(size, size, length - size, height - size)
    }
  }
}
