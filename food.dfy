/**
 * Food placement. The random fraction `rnd` in `[0, 1)` and its product with an arena
 * bound are taken as one integer draw `k`, standing for `floor(rnd * upper)`.
 */
module FoodEngine {
  import ArenaFactory

  lemma MulAtLeast(b: int, c: int)
    requires b > 0 && c > 0
    ensures b * c >= b
  {
    assert b * c == b * (c - 1) + b;
    if c > 1 { MulAtLeast(b, c - 1); }
  }

  /** A multiple of `b` leaves no remainder. */
  lemma MulMod(q: int, b: int)
    requires b > 0
    ensures (b * q) % b == 0
  {
    var m := (b * q) % b;
    var d := (b * q) / b;
    assert b * q == b * d + m;
    assert b * (q - d) == m by {
      assert b * q - b * d == b * (q - d);
    }
    if q - d > 0 { MulAtLeast(b, q - d); }
    else if q - d < 0 { MulAtLeast(b, d - q); }
  }

  /** The remainder of a non-negative dividend is no larger than the dividend. */
  lemma RemAtMost(a: int, b: int)
    requires a >= 0 && b > 0
    ensures a % b <= a
  {
    var q := a / b;
    assert a == b * q + a % b;
    if q > 0 {
      MulAtLeast(b, q);
    }
  }

  /** Removing the remainder leaves a multiple of `b`, for either sign of the dividend. */
  lemma RemovedRemainder(a: int, b: int)
    requires b > 0
    ensures (a - a % b) % b == 0
    ensures a < 0 ==> (a + (-a) % b) % b == 0
  {
    var q := a / b;
    assert a - a % b == b * q;
    MulMod(q, b);
    if a < 0 {
      var p := (-a) / b;
      assert a + (-a) % b == b * (-p) by {
        assert -a == b * p + (-a) % b;
      }
      MulMod(-p, b);
    }
  }

  /** `v` lies on the grid of multiples of `box`. */
  predicate OnGrid(v: int, box: int)
    requires box > 0
  {
    v % box == 0
  }

  /** JavaScript's `%` on numbers: the remainder takes the sign of the dividend. */
  function JsRem(a: int, b: int): (r: int)
    requires b > 0
    ensures a >= 0 ==> 0 <= r < b && r <= a
    ensures a < 0 ==> -b < r <= 0 && a <= r
    ensures OnGrid(a - r, b)
  {
    RemovedRemainder(a, b);
    RemAtMost(if a >= 0 then a else -a, b);
    if a >= 0 then a % b else -((-a) % b)
  }

  /** `v - v % box`: the draw rounded toward zero onto the box grid. */
  function Aligned(v: int, box: int): (r: int)
    requires box > 0
    ensures OnGrid(r, box)
    ensures v >= 0 ==> 0 <= r <= v < r + box
  {
    var rem := JsRem(v, box);
    v - rem
  }

  /**
   * One coordinate of `generate`: the aligned draw is nudged one box inward if it falls
   * below `box` or at or beyond `upper`. For a draw in `[0, upper)` with `upper > box`
   * the result lies in `[box, upper)` on the box grid.
   */
  function Placed(k: int, box: int, upper: int): (r: int)
    requires box > 0
    ensures 0 <= k < upper && box < upper ==> box <= r < upper && OnGrid(r, box)
    ensures box <= Aligned(k, box) < upper ==> r == Aligned(k, box)
  {
    var v := Aligned(k, box);
    var v1 := if v < box then v + box else v;
    var r := if v1 >= upper then v1 - box else v1;
    assert 0 <= k < upper && box < upper && v < box ==> r == box by {
      if 0 <= k && v < box {
        assert v % box == 0 && v % box == v;
      }
    }
    assert OnGrid(box, box);
    r
  }

  /** The food cell, which `Generate` overwrites. */
  class Food {
    var x: int
    var y: int
    var boxSize: int

    /** Before the first `Generate` the coordinates and the box are unset, here 0. */
    constructor ()
      ensures x == 0 && y == 0 && boxSize == 0
    {
      x := 0;
      y := 0;
      boxSize := 0;
    }

    /** Places the food from the draws `kx`, `ky` inside the arena's upper bounds. */
    method Generate(arena: ArenaFactory.Arena, boxSize: int, kx: int, ky: int)
      requires boxSize > 0
      modifies this
      ensures x == Placed(kx, boxSize, arena.ArenaBounds().upperX)
      ensures y == Placed(ky, boxSize, arena.ArenaBounds().upperY)
      ensures this.boxSize == boxSize
    {
      x := Aligned(kx, boxSize);
      y := Aligned(ky, boxSize);
      if x < boxSize { x := x + boxSize; }
      if x >= arena.ArenaBounds().upperX { x := x - boxSize; }
      if y < boxSize { y := y + boxSize; }
      if y >= arena.ArenaBounds().upperY { y := y - boxSize; }
      this.boxSize := boxSize;
    }
  }
}
