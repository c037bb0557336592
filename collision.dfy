/** The three collision rules and the per-tick collision step. */
module CollisionEngine {
  import opened Grid
  import opened ArenaFactory
  import opened SnakeFactory
  import opened FoodEngine

  /** Growth credits granted for one piece of food. */
  const GrowthPerFood := 5
  /** Box size used when food is respawned after a hit. */
  const FoodBox := 20

  /** The head has left the inclusive bounds on some side; the comparisons are strict. */
  function HitWall(head: Cell, b: Bounds): (r: bool)
    ensures !r <==> b.lowerX <= head.x <= b.upperX && b.lowerY <= head.y <= b.upperY
  {
    head.x < b.lowerX || head.x > b.upperX || head.y < b.lowerY || head.y > b.upperY
  }

  /** The head sits exactly on the food cell. */
  function HitFood(head: Cell, foodX: int, foodY: int): (r: bool)
    ensures r <==> head == Cell(foodX, foodY)
  {
    head.x == foodX && head.y == foodY
  }

  /**
   * Some segment other than the head, by index, shares the head's cell. Equivalently,
   * the head occurs in the body without its last element; a one-cell snake never hits itself.
   */
  function HitSelf(coords: seq<Cell>): (r: bool)
    ensures |coords| <= 1 ==> !r
    ensures r <==> |coords| > 0 && Last(coords) in coords[..|coords| - 1]
  {
    exists i | 0 <= i < |coords| :: coords[i] == coords[|coords| - 1] && i != |coords| - 1
  }

  /**
   * A head exactly on a bound is alive and one step of `speed` beyond it is a wall hit,
   * on each of the four sides.
   */
  lemma WallBoundExact(b: Bounds, speed: int, x: int, y: int)
    requires speed > 0
    requires b.lowerX <= x <= b.upperX && b.lowerY <= y <= b.upperY
    ensures !HitWall(Cell(b.upperX, y), b) && HitWall(Step(Cell(b.upperX, y), Right, speed), b)
    ensures !HitWall(Cell(b.lowerX, y), b) && HitWall(Step(Cell(b.lowerX, y), Left, speed), b)
    ensures !HitWall(Cell(x, b.upperY), b) && HitWall(Step(Cell(x, b.upperY), Down, speed), b)
    ensures !HitWall(Cell(x, b.lowerY), b) && HitWall(Step(Cell(x, b.lowerY), Up, speed), b)
  {
  }

  /** Every wall cell `build` appends lies outside the bounds the arena reports. */
  lemma WallsOutsideBounds(size: int, length: int, height: int)
    requires size > 0
    ensures forall c :: c in Perimeter(size, length, height) ==>
      HitWall(c, Bounds(size, size, length - size, height - size))
  {
    TopBottomOnWalls(0, size, length, height);
    LeftRightOnWalls(0, size, length, height);
  }

  /**
   * Food placed from draws inside `[0, upper)`, with a box equal to the arena's cell size,
   * is never on or beyond a wall and sits on the box grid.
   */
  lemma FoodInsideArena(a: ArenaFactory.Arena, kx: int, ky: int)
    requires a.size > 0
    requires a.ArenaBounds().upperX > a.size && a.ArenaBounds().upperY > a.size
    requires 0 <= kx < a.ArenaBounds().upperX && 0 <= ky < a.ArenaBounds().upperY
    ensures !HitWall(Cell(Placed(kx, a.size, a.ArenaBounds().upperX),
                          Placed(ky, a.size, a.ArenaBounds().upperY)), a.ArenaBounds())
    ensures OnGrid(Placed(kx, a.size, a.ArenaBounds().upperX), a.size)
    ensures OnGrid(Placed(ky, a.size, a.ArenaBounds().upperY), a.size)
  {
  }

  /**
   * A head that reaches the food cell is alive as far as the walls go: food placed from
   * in-range draws with the arena's own box size is a food hit and never a wall hit.
   */
  lemma FoodHitIsNotWallHit(a: ArenaFactory.Arena, head: Cell, kx: int, ky: int)
    requires a.size > 0
    requires a.ArenaBounds().upperX > a.size && a.ArenaBounds().upperY > a.size
    requires 0 <= kx < a.ArenaBounds().upperX && 0 <= ky < a.ArenaBounds().upperY
    requires HitFood(head, Placed(kx, a.size, a.ArenaBounds().upperX), Placed(ky, a.size, a.ArenaBounds().upperY))
    ensures !HitWall(head, a.ArenaBounds())
  {
    FoodInsideArena(a, kx, ky);
  }

  /**
   * Eating and dying are decided independently: food lying under the body can be eaten
   * by a move that also bites the body, so both flags hold after the same tick.
   */
  lemma AteAndBitSelf()
    ensures var body := [Cell(40, 40), Cell(60, 40), Cell(60, 60), Cell(40, 60), Cell(40, 40)];
      HitFood(Last(body), 40, 40) && HitSelf(body) &&
      !HitWall(Last(body), Bounds(20, 20, 480, 480))
  {
    var body := [Cell(40, 40), Cell(60, 40), Cell(60, 60), Cell(40, 60), Cell(40, 40)];
    assert body[0] == Last(body);
  }

  /**
   * One collision step: on a food hit the snake's counter is set to `GrowthPerFood` and
   * the food is respawned from the draws; `died` reports a wall or self hit, decided
   * independently of `ate`.
   */
  method Run(arena: Arena, snake: Snake, food: Food, kx: int, ky: int) returns (ate: bool, died: bool)
    requires |snake.coords| > 0
    modifies snake, food
    ensures ate == HitFood(old(snake.Head()), old(food.x), old(food.y))
    ensures snake.coords == old(snake.coords) && snake.direction == old(snake.direction)
    ensures died == (HitWall(snake.Head(), arena.ArenaBounds()) || HitSelf(snake.coords))
    ensures snake.speed == old(snake.speed) && snake.size == old(snake.size)
    ensures snake.pending == old(snake.pending) && snake.isInitialized == old(snake.isInitialized)
    ensures snake.counter == if ate then GrowthPerFood else old(snake.counter)
    ensures ate ==> food.x == Placed(kx, FoodBox, arena.ArenaBounds().upperX) &&
                    food.y == Placed(ky, FoodBox, arena.ArenaBounds().upperY) &&
                    food.boxSize == FoodBox
    ensures !ate ==> unchanged(food)
    ensures old(snake.Valid()) ==> snake.Valid()
  {
    ate := HitFood(snake.Head(), food.x, food.y);
    if ate {
      snake.Eat(GrowthPerFood);
      food.Generate(arena, FoodBox, kx, ky);
    }
    died := HitWall(snake.Head(), arena.ArenaBounds()) || HitSelf(snake.coords);
  }
}
