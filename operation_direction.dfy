// The four directions of a window operation, and how a layout flip mirrors them.

module OperationDirections {

  import opened Wrappers

  datatype OperationDirection = Left | Right | Up | Down

  /** The axes along which a layout can be flipped. */
  datatype Axis = Horizontal | Vertical | HorizontalAndVertical

  predicate IsHorizontal(d: OperationDirection) { d.Left? || d.Right? }

  /** `OperationDirection::opposite`. */
  function Opposite(d: OperationDirection): (o: OperationDirection)
    ensures o != d && IsHorizontal(o) == IsHorizontal(d)
  {
    match d
    case Left => Right
    case Right => Left
    case Up => Down
    case Down => Up
  }

  /**
   * `OperationDirection::flip`: with no flip the direction is kept; otherwise a
   * direction along a flipped axis is reversed.
   */
  function Flip(d: OperationDirection, layoutFlip: Option<Axis>): (f: OperationDirection)
    ensures IsHorizontal(f) == IsHorizontal(d)
  {
    match layoutFlip
    case None => d
    case Some(flip) =>
      match d
      case Left => (if flip.Horizontal? || flip.HorizontalAndVertical? then Right else d)
      case Right => (if flip.Horizontal? || flip.HorizontalAndVertical? then Left else d)
      case Up => (if flip.Vertical? || flip.HorizontalAndVertical? then Down else d)
      case Down => (if flip.Vertical? || flip.HorizontalAndVertical? then Up else d)
  }

  /** Whether a flip reverses directions along the axis of `d`. */
  predicate FlipsAxisOf(d: OperationDirection, a: Axis)
  {
    a.HorizontalAndVertical? || (a.Horizontal? <==> IsHorizontal(d))
  }

  /** Opposite is an involution. */
  lemma OppositeInvolution(d: OperationDirection)
    ensures Opposite(Opposite(d)) == d
  {
  }

  /** A flip either keeps the direction or reverses it, as its axis says. */
  lemma FlipIsOppositeOrSame(d: OperationDirection, a: Axis)
    ensures Flip(d, Some(a)) == (if FlipsAxisOf(d, a) then Opposite(d) else d)
    ensures Flip(d, None) == d
  {
  }

  /** Flipping twice about the same axis restores the direction. */
  lemma FlipInvolution(d: OperationDirection, a: Option<Axis>)
    ensures Flip(Flip(d, a), a) == d
  {
  }

  /** Flipping commutes with taking the opposite direction. */
  lemma FlipOpposite(d: OperationDirection, a: Option<Axis>)
    ensures Flip(Opposite(d), a) == Opposite(Flip(d, a))
  {
  }
}
