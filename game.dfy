/** The game session: scene machine, score, stored high score, and the per-tick lifecycle. */
module GameHandler {
  import opened Grid
  import opened ArenaFactory
  import opened SnakeFactory
  import opened FoodEngine
  import opened CollisionEngine

  const BoxSize := 20
  const ArenaHeight := 500
  const ArenaLength := 500
  const SnakeStartX := 100
  const SnakeStartY := 100

  datatype Scene = Init | Loop | Death

  /** A key event: Enter, one of the four arrow keys, or anything else. */
  datatype Key = Enter | Arrow(dir: Dir) | OtherKey

  datatype Option<T> = None | Some(value: T)

  /**
   * The stored high score after `setHighScore`: the score is written iff nothing is
   * stored yet or the score beats the stored value, so the result is their maximum.
   */
  function HighScoreAfter(score: int, stored: Option<int>): (r: Option<int>)
    ensures r.Some? && r.value >= score
    ensures stored.Some? ==> r.value >= stored.value
    ensures r == stored || r == Some(score)
    ensures r != stored <==> stored.None? || score > stored.value
  {
    if stored.None? || score > stored.value then Some(score) else stored
  }

  /** The high score the overlay shows during play: the larger of the score and the stored value. */
  function ShownHighScore(score: int, stored: Option<int>): (r: int)
    ensures r >= score
    ensures stored.Some? ==> r >= stored.value
    ensures r == score || (stored.Some? && r == stored.value)
  {
    if stored.None? || score > stored.value then score else stored.value
  }

  /** The overlay shows exactly the value a death at this moment would leave stored. */
  lemma ShownIsSaved(score: int, stored: Option<int>)
    ensures ShownHighScore(score, stored) == HighScoreAfter(score, stored).value
  {
  }

  /**
   * The game's wall-bound scenario: heading right from x = 380 at speed 20 in the 20/500/500
   * arena, the head is still alive after five moves (x = 480) and hits the wall on the sixth.
   */
  lemma RightWallScenario(body: seq<Cell>, counter: int)
    requires |body| > 0 && Last(body) == Cell(380, 100)
    ensures Last(Moves(body, Right, BoxSize, counter, 5)) == Cell(480, 100)
    ensures !HitWall(Last(Moves(body, Right, BoxSize, counter, 5)), Bounds(20, 20, 480, 480))
    ensures HitWall(Last(Moves(body, Right, BoxSize, counter, 6)), Bounds(20, 20, 480, 480))
  {
  }

  /** After one piece of food the snake grows by one cell per move for five moves, then holds its length. */
  lemma GrowthAfterFood(body: seq<Cell>, heading: Dir, n: nat)
    requires |body| > 0
    ensures |Moves(body, heading, BoxSize, GrowthPerFood, n)| == |body| + (if n < 5 then n else 5)
  {
  }

  class Game {
    const arena: Arena
    const snake: Snake
    const food: Food
    var scene: Scene
    var score: nat
    var stored: Option<int>

    ghost predicate Valid()
      reads this, arena, snake, food
    {
      snake.Valid() &&
      (arena.Built() <==> snake.isInitialized) &&
      (!snake.isInitialized ==> snake.coords == []) &&
      (snake.isInitialized ==>
         arena.size == BoxSize && arena.length == ArenaLength && arena.height == ArenaHeight &&
         snake.speed == BoxSize && snake.size == BoxSize)
    }

    /** A fresh session in the init scene; `stored` is what the key-value store holds already. */
    constructor (stored: Option<int>)
      ensures Valid()
      ensures scene == Init && score == 0 && this.stored == stored
      ensures !arena.Built() && arena.cells == [] && snake.pending == [] && snake.counter == 0
      ensures fresh(arena) && fresh(snake) && fresh(food)
    {
      arena := new Arena();
      snake := new Snake();
      food := new Food();
      scene := Init;
      score := 0;
      this.stored := stored;
    }

    /** Per-tick body of the init scene: build the arena (again), build the snake once, place food. */
    method InitTick(kx: int, ky: int)
      requires Valid()
      modifies arena, snake, food
      ensures Valid()
      ensures arena.cells == old(arena.cells) + Perimeter(BoxSize, ArenaLength, ArenaHeight)
      ensures snake.isInitialized
      ensures old(snake.isInitialized) ==> unchanged(snake)
      ensures !old(snake.isInitialized) ==>
        snake.coords == [Cell(SnakeStartX, SnakeStartY)] && snake.direction == Right &&
        snake.pending == old(snake.pending) && snake.counter == old(snake.counter)
      ensures food.x == Placed(kx, BoxSize, ArenaLength - BoxSize)
      ensures food.y == Placed(ky, BoxSize, ArenaHeight - BoxSize)
      ensures food.boxSize == BoxSize && snake.size == BoxSize
    {
      arena.Build(BoxSize, ArenaLength, ArenaHeight);
      snake.Build(SnakeStartX, SnakeStartY, BoxSize, BoxSize, Right);
      food.Generate(arena, BoxSize, kx, ky);
    }

    /**
     * Per-tick body of the loop scene: advance the snake, then apply the collision rules.
     * A food hit adds one to the score; a wall or self hit moves the scene to death.
     */
    method LoopTick(kx: int, ky: int) returns (ate: bool, died: bool)
      requires Valid() && arena.Built()
      modifies this, snake, food
      ensures Valid()
      ensures snake.direction == NextHeading(old(snake.direction), old(snake.pending))
      ensures snake.pending == Drained(old(snake.pending))
      ensures snake.coords == Moved(old(snake.coords), snake.direction, BoxSize, old(snake.counter) > 0)
      ensures ate == HitFood(snake.Head(), old(food.x), old(food.y))
      ensures died == (HitWall(snake.Head(), arena.ArenaBounds()) || HitSelf(snake.coords))
      ensures snake.counter ==
        if ate then GrowthPerFood
        else if old(snake.counter) > 0 then old(snake.counter) - 1 else old(snake.counter)
      ensures score == old(score) + (if ate then 1 else 0)
      ensures scene == if died then Death else old(scene)
      ensures ate ==> food.x == Placed(kx, FoodBox, ArenaLength - BoxSize) &&
                      food.y == Placed(ky, FoodBox, ArenaHeight - BoxSize) &&
                      food.boxSize == FoodBox
      ensures !ate ==> unchanged(food)
      ensures snake.size == old(snake.size)
      ensures stored == old(stored)
    {
      snake.Run();
      ate, died := CollisionEngine.Run(arena, snake, food, kx, ky);
      if ate {
        score := score + 1;
      }
      if died {
        scene := Death;
      }
    }

    /** Writes the score to the store iff nothing is stored or the score beats it. */
    method SetHighScore()
      modifies this
      ensures stored == HighScoreAfter(score, old(stored))
      ensures scene == old(scene) && score == old(score)
    {
      if stored.None? || score > stored.value {
        stored := Some(score);
      }
    }

    /** Per-tick body of the death scene: put the snake back at the start and save the high score. */
    method DeathTick()
      requires Valid() && arena.Built()
      modifies this, snake
      ensures Valid()
      ensures snake.coords == [Cell(SnakeStartX, SnakeStartY)] && snake.direction == Right
      ensures snake.size == BoxSize
      ensures snake.counter == old(snake.counter) && snake.pending == old(snake.pending)
      ensures stored == HighScoreAfter(score, old(stored))
      ensures scene == old(scene) && score == old(score)
    {
      snake.Reset(SnakeStartX, SnakeStartY, BoxSize, BoxSize, Right);
      SetHighScore();
    }

    /**
     * One timer tick: runs the body of the current scene. In the loop and death scenes
     * drawing the arena comes first and fails on an arena that was never built; then
     * `ok` is false and nothing changes.
     */
    method Tick(kx: int, ky: int) returns (ok: bool)
      requires Valid()
      modifies this, arena, snake, food
      ensures Valid()
      ensures ok <==> old(scene) == Init || old(arena.Built())
      ensures !ok ==> unchanged(this, arena, snake, food)
      ensures old(snake.isInitialized) ==> snake.isInitialized
      ensures scene != old(scene) ==> old(scene) == Loop && scene == Death
      ensures stored != old(stored) ==> old(scene) == Death
      ensures score != old(score) ==> old(scene) == Loop && score == old(score) + 1
      ensures old(scene) == Init ==>
        snake.isInitialized && stored == old(stored) &&
        arena.cells == old(arena.cells) + Perimeter(BoxSize, ArenaLength, ArenaHeight)
      ensures old(scene) == Init && old(snake.isInitialized) ==> unchanged(snake)
      ensures old(scene) == Init && !old(snake.isInitialized) ==>
        snake.coords == [Cell(SnakeStartX, SnakeStartY)] && snake.direction == Right &&
        snake.pending == old(snake.pending) && snake.counter == old(snake.counter)
      ensures old(scene) == Init ==>
        food.x == Placed(kx, BoxSize, ArenaLength - BoxSize) &&
        food.y == Placed(ky, BoxSize, ArenaHeight - BoxSize) &&
        food.boxSize == BoxSize && snake.size == BoxSize
      ensures old(scene) == Death && ok ==>
        snake.size == BoxSize
      ensures old(scene) == Death && ok ==>
        snake.coords == [Cell(SnakeStartX, SnakeStartY)] && snake.direction == Right &&
        snake.counter == old(snake.counter) && snake.pending == old(snake.pending) &&
        stored == HighScoreAfter(score, old(stored)) && stored.value >= score
      ensures old(scene) != Loop ==> score == old(score)
      ensures old(scene) != Init ==> unchanged(arena)
      ensures old(scene) == Death ==> unchanged(food)
      ensures old(scene) == Loop && ok ==>
        && snake.direction == NextHeading(old(snake.direction), old(snake.pending))
        && snake.pending == Drained(old(snake.pending))
        && snake.coords == Moved(old(snake.coords), snake.direction, BoxSize, old(snake.counter) > 0)
      ensures old(scene) == Loop && ok ==>
        var head := Step(Last(old(snake.coords)), NextHeading(old(snake.direction), old(snake.pending)), BoxSize);
        var ate := HitFood(head, old(food.x), old(food.y));
        && snake.Head() == head
        && |snake.coords| == |old(snake.coords)| + (if old(snake.counter) > 0 then 1 else 0)
        && score == old(score) + (if ate then 1 else 0)
        && snake.counter == (if ate then GrowthPerFood
                             else if old(snake.counter) > 0 then old(snake.counter) - 1
                             else old(snake.counter))
        && (ate ==> food.x == Placed(kx, FoodBox, ArenaLength - BoxSize) &&
                    food.y == Placed(ky, FoodBox, ArenaHeight - BoxSize) &&
                    food.boxSize == FoodBox)
        && (!ate ==> unchanged(food))
        && snake.size == old(snake.size)
        && (scene == Death <==> HitWall(head, arena.ArenaBounds()) || HitSelf(snake.coords))
    {
      match scene
      case Init =>
        InitTick(kx, ky);
        ok := true;
      case Loop =>
        ok := arena.Built();
        if ok {
          var ate, died := LoopTick(kx, ky);
        }
      case Death =>
        ok := arena.Built();
        if ok {
          DeathTick();
        }
    }

    /**
     * A key press. Enter starts a round from the init or death scene with the score at
     * zero and does nothing during play; an arrow key only queues a heading, in any scene.
     */
    method KeyPress(key: Key)
      requires Valid()
      modifies this, snake
      ensures Valid()
      ensures stored == old(stored)
      ensures key == Enter ==> scene == Loop && unchanged(snake)
      ensures key == Enter ==> score == if old(scene) == Loop then old(score) else 0
      ensures key.Arrow? ==>
        scene == old(scene) && score == old(score) &&
        snake.pending == old(snake.pending) + [key.dir] &&
        snake.coords == old(snake.coords) && snake.direction == old(snake.direction) &&
        snake.counter == old(snake.counter) && snake.speed == old(snake.speed) &&
        snake.size == old(snake.size) && snake.isInitialized == old(snake.isInitialized)
      ensures key == OtherKey ==> unchanged(this, snake)
    {
      match key
      case Enter =>
        if scene == Init {
          score := 0;
          scene := Loop;
        }
        if scene == Death {
          score := 0;
          scene := Loop;
        }
      case Arrow(d) =>
        snake.SetDirection(d);
      case OtherKey =>
    }
  }
}
