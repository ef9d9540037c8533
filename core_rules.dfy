// Small behaviour enums of the komorebi core: how a sizing request adjusts a
// value, where a floating window is placed, and which application property a
// rule identifies a window by.

module CoreRules {

  datatype Sizing = Increase | Decrease

  /**
   * `Sizing::adjust_by`: an increase always applies; a decrease applies only
   * while the value is positive and would not become negative.
   */
  function AdjustBy(s: Sizing, value: int, adjustment: int): (r: int)
    ensures s.Increase? ==> r == value + adjustment
    ensures s.Decrease? ==> r == value || (value > 0 && r == value - adjustment && r >= 0)
    ensures s.Decrease? && r != value ==> r >= 0
  {
    match s
    case Increase => value + adjustment
    case Decrease => if value > 0 && value - adjustment >= 0 then value - adjustment else value
  }

  /** A decrease never takes a non-negative value below zero. */
  lemma DecreaseKeepsNonNegative(value: int, adjustment: int)
    requires value >= 0
    ensures AdjustBy(Decrease, value, adjustment) >= 0
  {
  }

  /** A decrease that fits undoes the increase by the same amount. */
  lemma DecreaseUndoesIncrease(value: int, adjustment: int)
    requires value >= 0 && value + adjustment > 0
    ensures AdjustBy(Decrease, AdjustBy(Increase, value, adjustment), adjustment) == value
  {
  }

  /** A decrease is refused exactly when the value is not positive or the result would be negative. */
  lemma DecreaseRefused(value: int, adjustment: int)
    requires adjustment != 0
    ensures AdjustBy(Decrease, value, adjustment) == value <==> value <= 0 || value - adjustment < 0
  {
  }

  datatype FloatingLayerBehaviour = Tile | Float

  /** `FloatingLayerBehaviour::should_float`. */
  predicate ShouldFloat(b: FloatingLayerBehaviour)
  {
    match b
    case Tile => false
    case Float => true
  }

  datatype Placement = NoPlacement | Center | CenterAndResize

  /** `Placement::should_center`. */
  predicate ShouldCenter(p: Placement)
  {
    match p
    case NoPlacement => false
    case Center | CenterAndResize => true
  }

  /** `Placement::should_resize`. */
  predicate ShouldResize(p: Placement): (b: bool)
    ensures b ==> ShouldCenter(p)
  {
    match p
    case NoPlacement | Center => false
    case CenterAndResize => true
  }

  /**
   * The placement flags are consistent: a resized window is always centred,
   * and the three placements are told apart by the two flags.
   */
  lemma PlacementFlags(p: Placement, q: Placement)
    ensures ShouldResize(p) ==> ShouldCenter(p)
    ensures ShouldCenter(p) == ShouldCenter(q) && ShouldResize(p) == ShouldResize(q) ==> p == q
    ensures p == NoPlacement <==> !ShouldCenter(p)
  {
  }

  /** Only the floating layer behaviour floats. */
  lemma ShouldFloatExactly(b: FloatingLayerBehaviour)
    ensures ShouldFloat(b) <==> b == Float
  {
  }

  /** The window property a matching rule looks at. */
  datatype ApplicationIdentifier = Exe | Class | Title | Path

  /** The `Display` form of an identifier kind, as used in generated commands. */
  function IdentifierName(id: ApplicationIdentifier): (s: string)
    ensures |s| > 0
  {
    match id
    case Exe => "Exe"
    case Class => "Class"
    case Title => "Title"
    case Path => "Path"
  }

  /** Identifier names are distinct, so the displayed kind identifies the rule. */
  lemma IdentifierNameInjective(a: ApplicationIdentifier, b: ApplicationIdentifier)
    ensures IdentifierName(a) == IdentifierName(b) ==> a == b
  {
  }
}
