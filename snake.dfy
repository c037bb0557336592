/** The snake: its body, heading, growth counter and queue of pending headings. */
module SnakeFactory {
  import opened Grid

  function Last(cells: seq<Cell>): Cell
    requires |cells| > 0
  {
    cells[|cells| - 1]
  }

  /**
   * The heading after one `update`: the first pending request is adopted unless it is
   * the reverse of the current heading, in which case the heading is kept.
   */
  function NextHeading(heading: Dir, pending: seq<Dir>): (r: Dir)
    ensures r != Opposite(heading)
    ensures r == heading || (|pending| > 0 && r == pending[0])
    ensures |pending| > 0 ==> (r == pending[0] <==> pending[0] != Opposite(heading))
  {
    if |pending| == 0 then heading
    else if Opposite(pending[0]) == heading then heading
    else pending[0]
  }

  /** The queue after one `update`: only its first entry, if any, is consumed. */
  function Drained(pending: seq<Dir>): (r: seq<Dir>)
    ensures |pending| > 0 ==> pending == [pending[0]] + r
    ensures |pending| == 0 ==> r == []
  {
    if |pending| == 0 then pending else pending[1..]
  }

  /**
   * The body after `moveHead`: a new head one step along `heading` is appended, and the
   * oldest segment is dropped unless a growth credit is spent.
   */
  function Moved(body: seq<Cell>, heading: Dir, speed: int, grow: bool): (r: seq<Cell>)
    requires |body| > 0
    ensures |r| == |body| + (if grow then 1 else 0)
    ensures Last(r) == Step(Last(body), heading, speed)
    ensures r[..|r| - 1] == if grow then body else body[1..]
  {
    var pushed := body + [Step(Last(body), heading, speed)];
    if grow then pushed else pushed[1..]
  }

  /** The segment right behind the head is one step back along the heading. */
  predicate Trailing(body: seq<Cell>, heading: Dir, speed: int) {
    |body| >= 2 ==> Last(body) == Step(body[|body| - 2], heading, speed)
  }

  /** Moving keeps every pair of consecutive segments one step apart. */
  lemma MovedChained(body: seq<Cell>, heading: Dir, speed: int, grow: bool)
    requires |body| > 0 && Chained(body, speed)
    ensures Chained(Moved(body, heading, speed, grow), speed)
  {
    var r := Moved(body, heading, speed, grow);
    forall i | 0 <= i < |r| - 1
      ensures Adjacent(r[i], r[i + 1], speed)
    {
      if i == |r| - 2 {
        assert r[i] == Last(body);
      } else if grow {
        assert r[i] == body[i] && r[i + 1] == body[i + 1];
      } else {
        assert r[i] == body[i + 1] && r[i + 1] == body[i + 2];
      }
    }
  }

  /** After a move the new head is one step along the heading from the segment behind it. */
  lemma MovedTrailing(body: seq<Cell>, heading: Dir, speed: int, grow: bool)
    requires |body| > 0
    ensures Trailing(Moved(body, heading, speed, grow), heading, speed)
  {
    var r := Moved(body, heading, speed, grow);
    if |r| >= 2 {
      assert r[|r| - 2] == Last(body);
    }
  }

  /**
   * Whatever is pending, the next head never lands on the segment right behind the
   * current head: a reversal request is the only way to get there and it is discarded.
   */
  lemma NeckAvoided(body: seq<Cell>, heading: Dir, speed: int, pending: seq<Dir>)
    requires |body| >= 2 && speed != 0 && Trailing(body, heading, speed)
    ensures Step(Last(body), NextHeading(heading, pending), speed) != body[|body| - 2]
  {
    var neck := body[|body| - 2];
    StepBack(neck, heading, speed);
    StepInjective(Last(body), NextHeading(heading, pending), Opposite(heading), speed);
  }

  /** How many of the next `n` moves keep the tail, starting from growth counter `counter`. */
  function GrowthTicks(counter: int, n: nat): (r: nat)
    ensures r <= n
    ensures counter <= 0 ==> r == 0
    ensures counter > 0 ==> r == if counter < n then counter else n
  {
    if n == 0 then 0
    else if counter > 0 then 1 + GrowthTicks(counter - 1, n - 1)
    else GrowthTicks(counter, n - 1)
  }

  /** The body after `n` moves along a fixed heading, spending growth credits as `moveHead` does. */
  function Moves(body: seq<Cell>, heading: Dir, speed: int, counter: int, n: nat): (r: seq<Cell>)
    requires |body| > 0
    ensures |r| == |body| + GrowthTicks(counter, n)
    ensures Last(r) == Step(Last(body), heading, n * speed)
    decreases n
  {
    if n == 0 then body
    else
      var r := Moves(Moved(body, heading, speed, counter > 0), heading, speed,
                     if counter > 0 then counter - 1 else counter, n - 1);
      assert (n - 1) * speed + speed == n * speed;
      r
  }

  /** The snake. The head is the last element of `coords`. */
  class Snake {
    var coords: seq<Cell>
    var direction: Dir
    var speed: int
    var size: int
    var counter: int
    var isInitialized: bool
    var pending: seq<Dir>

    ghost predicate Valid()
      reads this
    {
      (isInitialized ==> |coords| > 0) &&
      Chained(coords, speed) &&
      Trailing(coords, direction, speed)
    }

    constructor ()
      ensures Valid()
      ensures coords == [] && pending == [] && counter == 0 && !isInitialized
    {
      coords := [];
      direction := Right;
      speed := 0;
      size := 0;
      counter := 0;
      isInitialized := false;
      pending := [];
    }

    /** One-time setup; later calls change nothing. */
    method Build(x: int, y: int, speed: int, size: int, direction: Dir)
      modifies this
      ensures old(isInitialized) ==> unchanged(this)
      ensures !old(isInitialized) ==>
        coords == old(coords) + [Cell(x, y)] && this.direction == direction &&
        this.speed == speed && this.size == size && isInitialized &&
        counter == old(counter) && pending == old(pending)
      ensures old(Valid()) && (old(isInitialized) || old(coords) == []) ==> Valid()
    {
      if isInitialized {
        return;
      }
      coords := coords + [Cell(x, y)];
      this.direction := direction;
      this.size := size;
      this.speed := speed;
      isInitialized := true;
    }

    /** The head: the last segment, the one every move pushes. */
    function Head(): (h: Cell)
      reads this
      requires |coords| > 0
      ensures h in coords
    {
      Last(coords)
    }

    /** The body splits into the segments behind the head followed by the head itself. */
    lemma HeadEndsBody()
      requires |coords| > 0
      ensures coords == coords[..|coords| - 1] + [Head()]
    {
    }

    /** Overwrites the growth counter; it does not add to credits still outstanding. */
    method Eat(growthSize: int)
      modifies this
      ensures counter == growthSize
      ensures coords == old(coords) && direction == old(direction) && speed == old(speed)
      ensures size == old(size) && isInitialized == old(isInitialized) && pending == old(pending)
      ensures old(Valid()) ==> Valid()
    {
      counter := growthSize;
    }

    /** Queues a heading request; the heading itself is untouched until the next `Update`. */
    method SetDirection(newDirection: Dir)
      modifies this
      ensures pending == old(pending) + [newDirection]
      ensures coords == old(coords) && direction == old(direction) && speed == old(speed)
      ensures size == old(size) && counter == old(counter) && isInitialized == old(isInitialized)
      ensures old(Valid()) ==> Valid()
    {
      pending := pending + [newDirection];
    }

    /** Consumes at most one pending request, discarding it if it reverses the heading. */
    method Update()
      modifies this
      ensures direction == NextHeading(old(direction), old(pending))
      ensures pending == Drained(old(pending))
      ensures coords == old(coords) && speed == old(speed) && size == old(size)
      ensures counter == old(counter) && isInitialized == old(isInitialized)
    {
      if |pending| > 0 {
        if Opposite(pending[0]) == direction {
          pending := pending[1..];
          return;
        }
        direction := pending[0];
        pending := pending[1..];
      }
    }

    /** Pushes a new head one step along the heading, then spends a growth credit or drops the tail. */
    method MoveHead()
      requires |coords| > 0
      modifies this
      ensures coords == Moved(old(coords), direction, speed, old(counter) > 0)
      ensures counter == if old(counter) > 0 then old(counter) - 1 else old(counter)
      ensures direction == old(direction) && speed == old(speed) && size == old(size)
      ensures pending == old(pending) && isInitialized == old(isInitialized)
      ensures Chained(old(coords), speed) ==> Chained(coords, speed)
      ensures Trailing(coords, direction, speed)
    {
      ghost var body, grow := coords, counter > 0;
      var head := Head();
      coords := coords + [Step(head, direction, speed)];
      if counter > 0 {
        counter := counter - 1;
      } else {
        coords := coords[1..];
      }
      assert coords == Moved(body, direction, speed, grow);
      if Chained(body, speed) {
        MovedChained(body, direction, speed, grow);
      }
      MovedTrailing(body, direction, speed, grow);
    }

    /** One simulation step of the snake: `Update` then `MoveHead`. */
    method Run()
      requires Valid() && |coords| > 0
      modifies this
      ensures Valid()
      ensures direction == NextHeading(old(direction), old(pending))
      ensures pending == Drained(old(pending))
      ensures coords == Moved(old(coords), direction, speed, old(counter) > 0)
      ensures counter == if old(counter) > 0 then old(counter) - 1 else old(counter)
      ensures speed == old(speed) && size == old(size) && isInitialized == old(isInitialized)
      ensures |old(coords)| >= 2 && speed != 0 ==> Head() != old(coords)[|old(coords)| - 2]
    {
      Update();
      MoveHead();
      if |old(coords)| >= 2 && speed != 0 {
        NeckAvoided(old(coords), old(direction), speed, old(pending));
      }
    }

    /** Replaces the body by one cell and sets heading, speed and size; counter and queue are kept. */
    method Reset(x: int, y: int, speed: int, size: int, direction: Dir)
      modifies this
      ensures coords == [Cell(x, y)]
      ensures this.speed == speed && this.size == size && this.direction == direction
      ensures counter == old(counter) && pending == old(pending) && isInitialized == old(isInitialized)
      ensures Valid()
    {
      coords := [Cell(x, y)];
      this.speed := speed;
      this.size := size;
      this.direction := direction;
    }
  }
}
