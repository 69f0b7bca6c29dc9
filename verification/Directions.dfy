/**
 Identifiers as numbers, and the two directions of a skip-graph list.

 A node identifier is represented by its big-endian value. `Identifiers.Compare` is shown to be
 comparison of these values, and equal-length byte strings with equal values are equal.
 */
module Directions {
  type Id = nat

  datatype Direction = Left | Right {
    function Opposite(): Direction {
      match this
      case Left => Right
      case Right => Left
    }
  }

  /** The position of an identifier on the axis that grows in direction `d`. */
  function Key(d: Direction, id: Id): int {
    if d.Right? then id as int else -(id as int)
  }

  /** `to` lies strictly on direction `d` of `from`. */
  predicate Beyond(d: Direction, from: Id, to: Id) {
    Key(d, from) < Key(d, to)
  }

  /** Right is upward and left downward; facing the other way reverses the axis, and twice changes nothing. */
  lemma OppositeMirrors(d: Direction, a: Id, b: Id)
    ensures Beyond(Right, a, b) <==> a < b
    ensures Beyond(Left, a, b) <==> b < a
    ensures d.Opposite().Opposite() == d && d.Opposite() != d
    ensures Beyond(d.Opposite(), a, b) <==> Beyond(d, b, a)
    ensures Key(d, a) == Key(d, b) <==> a == b
  {
  }
}
