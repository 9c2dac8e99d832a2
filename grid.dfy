/** Integer grid cells and the four cardinal directions shared by the sheep,
    the game manager and the player agent. Unity's float positions are
    restricted to whole cells, which is where an actor stands when at rest;
    positions between cells during a move are not modelled. */
module Grid {

  datatype Option<T> = None | Some(value: T)

  /** A grid cell (the x and y of a transform position). */
  datatype Cell = Cell(x: int, y: int)

  /** Unity's Vector2Int.up, down, left and right. */
  datatype Dir = Up | Down | Left | Right

  /** A one-cell step along exactly one axis. */
  predicate IsUnitCardinal(m: Cell)
  {
    (m.x == 0 && (m.y == 1 || m.y == -1)) || (m.y == 0 && (m.x == 1 || m.x == -1))
  }

  /** The vector of a direction, with y growing upwards as in Unity. */
  function Delta(d: Dir): (m: Cell)
    ensures IsUnitCardinal(m)
    ensures (m.y > 0 <==> d == Up) && (m.y < 0 <==> d == Down)
    ensures (m.x < 0 <==> d == Left) && (m.x > 0 <==> d == Right)
  {
    match d
    case Up => Cell(0, 1)
    case Down => Cell(0, -1)
    case Left => Cell(-1, 0)
    case Right => Cell(1, 0)
  }

  /** The cell one step from p in direction d. */
  function Step(p: Cell, d: Dir): Cell
  {
    Cell(p.x + Delta(d).x, p.y + Delta(d).y)
  }

  /** Vector2.sqrMagnitude of a - b, exact on integer cells. */
  function SqDist(a: Cell, b: Cell): nat
  {
    (a.x - b.x) * (a.x - b.x) + (a.y - b.y) * (a.y - b.y)
  }
}
