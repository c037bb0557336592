/** Cells, headings and single steps on the game's pixel grid. */
module Grid {

  /** A heading of the snake ("left", "right", "up", "down" in the game). */
  datatype Dir = Left | Right | Up | Down

  /** A grid position in canvas pixels; y grows downward. */
  datatype Cell = Cell(x: int, y: int)

  function Abs(n: int): nat { if n < 0 then -n else n }

  predicate Horizontal(d: Dir) { d == Left || d == Right }

  /** The table of opposing headings, as a total function. */
  function Opposite(d: Dir): (r: Dir)
    ensures r != d
    ensures Horizontal(r) == Horizontal(d)
  {
    match d
    case Left => Right
    case Right => Left
    case Up => Down
    case Down => Up
  }

  lemma OppositeInvolutive(d: Dir)
    ensures Opposite(Opposite(d)) == d
  {
  }

  /** The cell one `speed` away from `c` along heading `d`. */
  function Step(c: Cell, d: Dir, speed: int): (r: Cell)
    ensures Adjacent(c, r, speed)
    ensures Horizontal(d) ==> r.y == c.y
    ensures !Horizontal(d) ==> r.x == c.x
  {
    match d
    case Left => Cell(c.x - speed, c.y)
    case Right => Cell(c.x + speed, c.y)
    case Up => Cell(c.x, c.y - speed)
    case Down => Cell(c.x, c.y + speed)
  }

  /** `a` and `b` differ by exactly `|speed|` along one axis and agree on the other. */
  predicate Adjacent(a: Cell, b: Cell, speed: int) {
    (a.x == b.x && Abs(a.y - b.y) == Abs(speed)) ||
    (a.y == b.y && Abs(a.x - b.x) == Abs(speed))
  }

  /** Every consecutive pair of segments is one step apart. */
  predicate Chained(cells: seq<Cell>, speed: int) {
    forall i :: 0 <= i < |cells| - 1 ==> Adjacent(cells[i], cells[i + 1], speed)
  }

  /** Stepping back along the opposite heading returns to the start cell. */
  lemma StepBack(c: Cell, d: Dir, speed: int)
    ensures Step(Step(c, d, speed), Opposite(d), speed) == c
  {
  }

  /** With a non-zero speed, different headings lead to different cells. */
  lemma StepInjective(c: Cell, d1: Dir, d2: Dir, speed: int)
    requires speed != 0
    ensures Step(c, d1, speed) == Step(c, d2, speed) <==> d1 == d2
  {
  }
}
