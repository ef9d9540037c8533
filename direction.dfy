// Navigation between the containers of a layout: whether a move in a
// direction is possible from a container index, and where it lands. Default
// layouts decide by index arithmetic; a custom layout decides by the columns
// its containers fall into.

module Directions {

  import opened Wrappers
  import opened OperationDirections
  import opened DefaultLayouts
  import CustomLayouts

  /**
   * What the grid geometry answers for the move being asked about: whether the
   * container sits on the grid's edge in that direction (`is_grid_edge`) and
   * the neighbour it would move to (`grid_neighbor`).
   */
  datatype GridAnswer = GridAnswer(isEdge: bool, neighbor: nat)

  /** Grid answers for a lookup that is never about a grid. */
  const NoGrid := GridAnswer(true, 0)

  // ---------------------------------------------------------- default layouts

  /** `is_valid_direction` for a default layout. */
  predicate IsValidDirection(layout: DefaultLayout, dir: OperationDirection, idx: nat, count: nat, grid: GridAnswer)
  {
    count >= 2 &&
    match dir
    case Up =>
      (match layout
       case BSP => idx != 0 && idx != 1
       case Columns => false
       case Rows | HorizontalStack => idx != 0
       case VerticalStack | RightMainVerticalStack => idx != 0 && idx != 1
       case UltrawideVerticalStack => idx > 2
       case Grid => !grid.isEdge
       case Scrolling => false)
    case Down =>
      (match layout
       case BSP => idx != count - 1 && idx % 2 != 0
       case Columns => false
       case Rows => idx != count - 1
       case VerticalStack | RightMainVerticalStack => idx != 0 && idx != count - 1
       case HorizontalStack => idx == 0
       case UltrawideVerticalStack => idx > 1 && idx != count - 1
       case Grid => !grid.isEdge
       case Scrolling => false)
    case Left =>
      (match layout
       case BSP | Columns | VerticalStack | Scrolling => idx != 0
       case RightMainVerticalStack => idx == 0
       case Rows => false
       case HorizontalStack => idx != 0 && idx != 1
       case UltrawideVerticalStack => idx != 1
       case Grid => !grid.isEdge)
    case Right =>
      (match layout
       case BSP => idx % 2 == 0 && idx != count - 1
       case Columns | Scrolling => idx != count - 1
       case Rows => false
       case VerticalStack => idx == 0
       case RightMainVerticalStack => idx != 0
       case HorizontalStack => idx != 0 && idx != count - 1
       case UltrawideVerticalStack => if count == 2 then idx != 0 else idx < 2
       case Grid => !grid.isEdge)
  }

  /** `up_index`; the layouts for which Up is never valid have no case. */
  function UpIndex(layout: DefaultLayout, idx: nat, count: nat, grid: GridAnswer): (r: nat)
    requires IsValidDirection(layout, Up, idx, count, grid)
    ensures layout != Grid ==> r < idx
  {
    match layout
    case BSP => if idx % 2 == 0 then idx - 1 else idx - 2
    case Rows | VerticalStack | UltrawideVerticalStack | RightMainVerticalStack => idx - 1
    case HorizontalStack => 0
    case Grid => grid.neighbor
  }

  /** `down_index`. */
  function DownIndex(layout: DefaultLayout, idx: nat, count: nat, grid: GridAnswer): (r: nat)
    requires IsValidDirection(layout, Down, idx, count, grid)
    ensures layout != Grid && idx < count ==> idx < r < count
  {
    match layout
    case BSP | Rows | VerticalStack | UltrawideVerticalStack | RightMainVerticalStack => idx + 1
    case HorizontalStack => 1
    case Grid => grid.neighbor
  }

  /** `left_index`. */
  function LeftIndex(layout: DefaultLayout, idx: nat, count: nat, grid: GridAnswer): (r: nat)
    requires IsValidDirection(layout, Left, idx, count, grid)
    ensures layout != Grid ==> r != idx && (idx < count ==> r < count)
  {
    match layout
    case BSP => if idx % 2 == 0 then idx - 2 else idx - 1
    case Columns | HorizontalStack | Scrolling => idx - 1
    case VerticalStack => 0
    case RightMainVerticalStack => 1
    case UltrawideVerticalStack => if idx == 0 then 1 else 0
    case Grid => grid.neighbor
  }

  /**
   * `right_index`. The ultrawide stack has no answer beyond its first two
   * containers; a container index below `count` never gets there.
   */
  function RightIndex(layout: DefaultLayout, idx: nat, count: nat, grid: GridAnswer): (r: nat)
    requires IsValidDirection(layout, Right, idx, count, grid) && idx < count
    ensures layout != Grid ==> r != idx && r < count
  {
    match layout
    case BSP | Columns | HorizontalStack | Scrolling => idx + 1
    case VerticalStack => 1
    case RightMainVerticalStack => 0
    case UltrawideVerticalStack => if idx == 1 then 0 else 2
    case Grid => grid.neighbor
  }

  /**
   * `index_in_direction` for a default layout, from container `idx` of
   * `count`: nothing exactly when the move is not valid, and otherwise (grid
   * aside) another container of the layout.
   */
  function IndexInDirection(layout: DefaultLayout, dir: OperationDirection, idx: nat, count: nat, grid: GridAnswer): (r: Option<nat>)
    requires idx < count
    ensures r.None? <==> !IsValidDirection(layout, dir, idx, count, grid)
    ensures r.Some? && layout != Grid ==> r.value < count && r.value != idx
    ensures r.Some? && layout == Grid ==> r.value == grid.neighbor
  {
    if !IsValidDirection(layout, dir, idx, count, grid) then None
    else
      match dir
      case Up => Some(UpIndex(layout, idx, count, grid))
      case Down => Some(DownIndex(layout, idx, count, grid))
      case Left => Some(LeftIndex(layout, idx, count, grid))
      case Right => Some(RightIndex(layout, idx, count, grid))
  }

  /** With fewer than two containers there is nowhere to go. */
  lemma FewerThanTwoGoNowhere(layout: DefaultLayout, dir: OperationDirection, idx: nat, count: nat, grid: GridAnswer)
    requires idx < count < 2
    ensures IndexInDirection(layout, dir, idx, count, grid) == None
  {
  }

  /** Columns only move sideways, to the neighbouring index; rows only move vertically. */
  lemma ColumnsAndRows(dir: OperationDirection, idx: nat, count: nat, grid: GridAnswer)
    requires idx < count
    ensures !IsHorizontal(dir) ==> IndexInDirection(Columns, dir, idx, count, grid) == None
    ensures IsHorizontal(dir) ==> IndexInDirection(Rows, dir, idx, count, grid) == None
    ensures IndexInDirection(Columns, Left, idx, count, grid) == if idx > 0 then Some(idx - 1) else None
    ensures IndexInDirection(Columns, Right, idx, count, grid) == if idx + 1 < count then Some(idx + 1) else None
  {
  }

  /** In a vertical stack the main container goes right to the first of the stack, and the stack goes left to it. */
  lemma VerticalStackSideways(idx: nat, count: nat, grid: GridAnswer)
    requires idx < count && count >= 2
    ensures IndexInDirection(VerticalStack, Right, idx, count, grid) == if idx == 0 then Some(1) else None
    ensures IndexInDirection(VerticalStack, Left, idx, count, grid) == if idx != 0 then Some(0) else None
  {
  }

  // ----------------------------------------------------------- custom layouts

  /** The columns in which containers stack on top of one another. */
  predicate StacksHorizontally(c: CustomLayouts.Column)
  {
    (c.Secondary? && c.split.Some? && c.split.value.HorizontalWith?)
    || c == CustomLayouts.Tertiary(CustomLayouts.Horizontal)
  }

  /**
   * `is_valid_direction` for a custom layout. With no more containers than
   * columns it behaves as `Columns`; otherwise a sideways move needs a
   * column on that side, and a vertical move needs a neighbouring container
   * in the same, horizontally split, column.
   */
  predicate CustomIsValid(l: seq<CustomLayouts.Column>, dir: OperationDirection, idx: nat, count: nat)
    requires |l| > 0
  {
    if count <= |l| then IsValidDirection(Columns, dir, idx, count, NoGrid)
    else
      var col := CustomLayouts.ColumnOf(l, idx);
      match dir
      case Left => idx != 0 && col != 0
      case Right => idx != count - 1 && col != |l| - 1
      case Up => idx != 0 && StacksHorizontally(l[col]) && CustomLayouts.ColumnOf(l, idx - 1) == col
      case Down => idx != count - 1 && StacksHorizontally(l[col]) && CustomLayouts.ColumnOf(l, idx + 1) == col
  }

  /**
   * `index_in_direction` for a custom layout: up and down are the neighbouring
   * indices, left is the first container of the column to the left (index 0
   * when that is the first column), right the first container of the column
   * to the right. An empty layout is refused, where the source underflows.
   */
  function CustomIndexInDirection(l: seq<CustomLayouts.Column>, dir: OperationDirection, idx: nat, count: nat): (r: Option<nat>)
    requires |l| > 0 && idx < count
    ensures r.None? <==> !CustomIsValid(l, dir, idx, count)
    ensures count <= |l| ==> r == IndexInDirection(Columns, dir, idx, count, NoGrid)
  {
    if count <= |l| then IndexInDirection(Columns, dir, idx, count, NoGrid)
    else if !CustomIsValid(l, dir, idx, count) then None
    else
      var col := CustomLayouts.ColumnOf(l, idx);
      match dir
      case Up => Some(idx - 1)
      case Down => Some(idx + 1)
      case Left => Some(if col - 1 == 0 then 0 else CustomLayouts.Before(l, col - 1))
      case Right => Some(CustomLayouts.Before(l, col + 1))
  }

  /**
   * A move in a custom layout with more containers than columns lands in the
   * intended column: up and down stay in the container's column, left lands
   * on the first container of the column to the left and right on the first
   * container of the column to the right, which are that column's own
   * whenever the column holds a container.
   */
  lemma CustomMovesBetweenColumns(l: seq<CustomLayouts.Column>, dir: OperationDirection, idx: nat, count: nat)
    requires |l| > 0 && idx < count && |l| < count
    requires CustomIndexInDirection(l, dir, idx, count).Some?
    ensures var r, col := CustomIndexInDirection(l, dir, idx, count).value, CustomLayouts.ColumnOf(l, idx);
      match dir
      case Up => r == idx - 1 && CustomLayouts.ColumnOf(l, r) == col
      case Down => r == idx + 1 && CustomLayouts.ColumnOf(l, r) == col
      case Left =>
        0 < col && r == CustomLayouts.Before(l, col - 1) && r <= idx
        && (CustomLayouts.Capacity(l[col - 1]).UnwrapOr(0) > 0 ==> CustomLayouts.ColumnOf(l, r) == col - 1)
      case Right =>
        col + 1 < |l| && r == CustomLayouts.Before(l, col + 1) && idx < r
        && (col + 1 == |l| - 1 || CustomLayouts.Capacity(l[col + 1]).UnwrapOr(0) > 0 ==> CustomLayouts.ColumnOf(l, r) == col + 1)
  {
    var col := CustomLayouts.ColumnOf(l, idx);
    CustomLayouts.ColumnOfSpans(l, idx);
    match dir
    case Up =>
    case Down =>
    case Left =>
      CustomLayouts.BeforeMonotone(l, col - 1, col);
      if CustomLayouts.Capacity(l[col - 1]).UnwrapOr(0) > 0 {
        CustomLayouts.FirstContainerRoundTrip(l, col - 1);
      }
    case Right =>
      if col + 1 == |l| - 1 || CustomLayouts.Capacity(l[col + 1]).UnwrapOr(0) > 0 {
        CustomLayouts.FirstContainerRoundTrip(l, col + 1);
      }
  }

  /**
   * Moving right from a column that is not full lands past the last
   * container: in a valid layout of a primary column, a secondary column
   * for three and the tertiary column, holding four containers, the
   * secondary column holds containers 1 to 3 and the tertiary column none,
   * so container 1 moves right to index 4, which is no container.
   */
  lemma CustomRightCanLandPastEnd()
    ensures var l := [CustomLayouts.Primary(None), CustomLayouts.Secondary(Some(CustomLayouts.HorizontalWith(3))),
                      CustomLayouts.Tertiary(CustomLayouts.Horizontal)];
      CustomLayouts.IsValid(l) && CustomIndexInDirection(l, Right, 1, 4) == Some(4)
  {
    var l := [CustomLayouts.Primary(None), CustomLayouts.Secondary(Some(CustomLayouts.HorizontalWith(3))),
              CustomLayouts.Tertiary(CustomLayouts.Horizontal)];
    assert CustomLayouts.Before(l, 1) == 1 && CustomLayouts.Before(l, 2) == 4;
    assert CustomLayouts.ColumnFrom(l, 1, 1) == 1;
    assert CustomLayouts.ColumnOf(l, 1) == 1;
    assert CustomLayouts.Primaries(l) == 1 && CustomLayouts.Tertiaries(l) == 1;
  }

  // ------------------------------------------------------------- destination

  /** Anything that answers `index_in_direction`. */
  datatype Layout = Default(layout: DefaultLayout) | Custom(columns: seq<CustomLayouts.Column>)

  predicate Navigable(layout: Layout)
  {
    layout.Custom? ==> |layout.columns| > 0
  }

  function LayoutIndexInDirection(layout: Layout, dir: OperationDirection, idx: nat, count: nat, grid: GridAnswer): (r: Option<nat>)
    requires Navigable(layout) && idx < count
  {
    match layout
    case Default(d) => IndexInDirection(d, dir, idx, count, grid)
    case Custom(l) => CustomIndexInDirection(l, dir, idx, count)
  }

  /**
   * `OperationDirection::destination`: the container reached from `idx` of
   * `len` (a non-zero count) when moving in `dir` on a layout flipped about
   * `layoutFlip`.
   */
  function Destination(dir: OperationDirection, layout: Layout, layoutFlip: Option<Axis>, idx: nat, len: nat, grid: GridAnswer): (r: Option<nat>)
    requires Navigable(layout) && 0 < len && idx < len
  {
    LayoutIndexInDirection(layout, Flip(dir, layoutFlip), idx, len, grid)
  }

  /**
   * On an unflipped layout the destination is the index in the direction
   * asked; a flip about the direction's axis reverses the move, and any
   * other flip leaves it alone.
   */
  lemma DestinationFollowsFlip(dir: OperationDirection, layout: Layout, layoutFlip: Option<Axis>, idx: nat, len: nat, grid: GridAnswer)
    requires Navigable(layout) && 0 < len && idx < len
    ensures layoutFlip.None? ==> Destination(dir, layout, layoutFlip, idx, len, grid) == LayoutIndexInDirection(layout, dir, idx, len, grid)
    ensures layoutFlip.Some? && FlipsAxisOf(dir, layoutFlip.value) ==>
      Destination(dir, layout, layoutFlip, idx, len, grid) == LayoutIndexInDirection(layout, Opposite(dir), idx, len, grid)
    ensures layoutFlip.Some? && !FlipsAxisOf(dir, layoutFlip.value) ==>
      Destination(dir, layout, layoutFlip, idx, len, grid) == LayoutIndexInDirection(layout, dir, idx, len, grid)
  {
    if layoutFlip.Some? {
      FlipIsOppositeOrSame(dir, layoutFlip.value);
    }
  }

  /**
   * On a default layout other than the grid, a destination is another
   * container of the layout, and there is one exactly when the flipped move
   * is valid.
   */
  lemma DestinationInRange(dir: OperationDirection, layout: DefaultLayout, layoutFlip: Option<Axis>, idx: nat, len: nat, grid: GridAnswer)
    requires 0 < len && idx < len && layout != Grid
    ensures var r := Destination(dir, Default(layout), layoutFlip, idx, len, grid);
      (r.Some? <==> IsValidDirection(layout, Flip(dir, layoutFlip), idx, len, grid))
      && (r.Some? ==> r.value < len && r.value != idx)
  {
  }
}
