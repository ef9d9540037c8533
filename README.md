# komorebi core, modelled in Dafny

This project models the sequential logic at the heart of komorebi, a tiling
window manager for Windows, and proves properties of that model. It also models
the repository's schema documentation audit script. Each source file of the core
is a Dafny module of its own:

- **Geometry** (`rect.dfy`): the layout rectangle, with padding, margin,
  point containment, DPI scaling and the Win32 conversion.
- **Colours** (`colour.dfy`): RGB and hex colours, and their packing into a
  `u32` as `0x00BBGGRR`.
- **CoreRules** (`core_rules.dfy`): `Sizing::adjust_by`, the placement flags,
  the floating-layer behaviour and the names of rule identifiers.
- **OperationDirections** (`operation_direction.dfy`): the four directions,
  their opposites and how a layout flip mirrors them.
- **Directions** (`direction.dfy`): whether a move between containers is
  possible, and where it lands, for the predefined layouts and for custom
  layouts.
- **DefaultLayouts** (`default_layout.dfy`): layout cycling, the outermost
  container indices, per-container resize, and the ratio arrays.
- **CustomLayouts** (`custom_layout.dfy`): validity of a user layout, and the
  mapping between container indices and columns. It also covers the area of a
  column.
- **Arrangement** (`arrangement.dfy`): splitting an area into equal columns
  or rows, the resize adjustments between neighbouring strips, and the
  reversal applied when a layout is flipped.
- **Lockable sequences**:
  - **LockableSequences** (`lockable_sequence.dfy`): insert, remove and swap
    on a deque whose locked elements keep their positions.
  - **Rings** (`ring.dfy`): the focus-tracking `Ring` class, whose lock
    operations reuse those of LockableSequences.
  - **LockedDeques** (`locked_deque.dfy`): the same operations on a deque
    paired with an ordered set of locked indices.
- **Animations** (`animation_manager.dfy`): the animation manager, a class
  that updates a map of per-animation state in place.
- **WindowRules** (`window.dfy`): matching a window against identifiers and
  rules, and the aspect ratios.
- **ConfigGeneration** (`config_generation.dfy`): default matching
  strategies, merging configurations, and generating `komorebic` commands.
  The model proves that each float rule is emitted once.
- **Schema audit** (`check_schema_docs.py`):
  - **SchemaDocs** (`schema_docs.dfy`): classifying the schema definitions and
    recording missing descriptions and titles.
  - **RustLocator** (`rust_locator.dfy`): finding the Rust line for each gap
    by tracking brace depth.
- **Support modules**: `Wrappers`, `Strings` and `Json` provide `Option`,
  string order and sorting, and JSON values as Python reads them.

Two kinds of source code are modelled differently:

- **State-changing code** becomes imperative Dafny:
  - a class with `modifies` clauses (`Ring`, `AnimationManager`);
  - methods over arrays (`columns_reverse` and `rows_reverse`);
  - methods with loops and invariants, proved equal to a specification
    function (the lock-respecting operations, the splitting loops, the
    generators and the audit's loops).
- **Expression-level code** becomes functions and lemmas.

Integers are unbounded. Rust's truncating division is written out
(`Geometry.TruncDiv`). Byte and `u32` ranges are stated where the source
relies on them.

## Model

| member | source | states |
|---|---|---|
| Geometry.TruncDiv | komorebi-layouts/src/rect.rs:150-157 | Rust's integer `/` truncates toward zero: it agrees with floor division on non-negative operands, and the quotient's sign follows the operands' signs |
| Geometry.AddPadding | komorebi-layouts/src/rect.rs:113-123 | no padding leaves the rectangle unchanged; a padding moves each pair of opposite edges inward by the padding |
| Geometry.AddMargin | komorebi-layouts/src/rect.rs:126-131 | a margin moves each pair of opposite edges outward by the margin |
| Geometry.LeftPadding | komorebi-layouts/src/rect.rs:133-135 | only `left` changes, by the padding |
| Geometry.RightPadding | komorebi-layouts/src/rect.rs:137-139 | only `right` (the width) changes, by minus the padding |
| Geometry.Scale | komorebi-layouts/src/rect.rs:150-157 | a zero target DPI scales every rectangle to the zero rectangle |
| Geometry.FromWin32 | komorebi-layouts/src/rect.rs:31-41 | edge coordinates become an origin and an extent whose far edges are the Win32 right and bottom |
| Geometry.ToWin32 | komorebi-layouts/src/rect.rs:161-168 | the Win32 rectangle spans exactly the extent: right − left is the width, bottom − top the height |
| Geometry.PaddingMarginInverse | komorebi-layouts/src/rect.rs:113-131 | a margin undoes a padding of the same amount, and a padding undoes a margin |
| Geometry.PaddingShrinks | komorebi-layouts/src/rect.rs:113-147 | every point of a rectangle padded by a non-negative amount lies in the original rectangle |
| Geometry.PaddingKeepsCentre | komorebi-layouts/src/rect.rs:113-123 | padding keeps the centre of the rectangle |
| Geometry.ScaleSameDpi | komorebi-layouts/src/rect.rs:150-157 | scaling from a DPI to the same non-zero DPI is the identity, despite truncation |
| Geometry.Win32RoundTrip | komorebi-layouts/src/rect.rs:31-168 | converting to a Win32 rectangle and back is the identity, in both directions |
| Geometry.CornersContained | komorebi-layouts/src/rect.rs:142-147 | `contains_point` is closed: both corners of a rectangle with a non-negative extent are inside |
| Geometry.IsSameSizeAs | komorebi-layouts/src/rect.rs:102-104 | rectangles of the same size have their far edges as far apart as their near edges |
| Geometry.HasSamePositionAs | komorebi-layouts/src/rect.rs:106-108 | rectangles with the same position and the same size are equal, and conversely |
| Geometry.ContainsPoint | komorebi-layouts/src/rect.rs:142-147 | closed on all four edges, with no contract of its own: `CornersContained` and `PaddingShrinks` state its properties |
| Colours.Truncate | komorebi-themes/src/colour.rs:47 | `x as u8` keeps the low byte |
| Colours.FromRgb | komorebi-themes/src/colour.rs:47 | `Color32::from_rgb` makes an opaque colour with the three given bytes |
| Colours.RgbFromHex | komorebi-themes/src/colour.rs:108-116 | widening a hex colour gives byte-valued components whose low bytes are the hex bytes |
| Colours.Pack | komorebi-themes/src/colour.rs:118-122 | `r \| g << 8 \| b << 16` fits in 24 bits for byte components, and its low byte is red's |
| Colours.Unpack | komorebi-themes/src/colour.rs:124-131 | unpacking yields three byte-valued components |
| Colours.ColourFromU32 | komorebi-themes/src/colour.rs:28-32 | a u32 always becomes the RGB variant, with byte-valued components |
| Colours.ColourToU32 | komorebi-themes/src/colour.rs:75-81 | a hex colour packs into 24 bits |
| Colours.ToColor32 | komorebi-themes/src/colour.rs:44-54 | the egui colour is opaque and a hex colour keeps its bytes |
| Colours.FromColor32 | komorebi-themes/src/colour.rs:34-42 | an egui colour becomes a byte-valued RGB colour |
| Colours.PackUnpack | komorebi-themes/src/colour.rs:118-131 | packing what was unpacked keeps exactly the low 24 bits |
| Colours.UnpackPack | komorebi-themes/src/colour.rs:118-131 | unpacking what was packed is the identity when every component is at most 255 |
| Colours.ColourU32RoundTrip | komorebi-themes/src/colour.rs:28-32 | u32 → `Colour` → u32 keeps the low 24 bits, and is the identity below 2^24 |
| Colours.HexPacksAsRgb | komorebi-themes/src/colour.rs:75-81 | a hex colour packs to the value of the RGB colour it converts to |
| Colours.Color32RoundTrip | komorebi-themes/src/colour.rs:34-54 | an egui colour survives the trip through `Colour` exactly when it is opaque |
| Colours.ColourColor32RoundTrip | komorebi-themes/src/colour.rs:34-54 | a byte-valued RGB colour survives the trip through egui's colour; a hex colour comes back as its RGB form |
| CoreRules.AdjustBy | komorebi/src/core/mod.rs:523-538 | an increase adds the adjustment; a decrease either leaves the value or subtracts the adjustment from a positive value without going below zero |
| CoreRules.DecreaseKeepsNonNegative | komorebi/src/core/mod.rs:527-534 | a decrease never takes a non-negative value below zero |
| CoreRules.DecreaseUndoesIncrease | komorebi/src/core/mod.rs:523-538 | a decrease undoes an increase by the same amount when the increased value is positive |
| CoreRules.DecreaseRefused | komorebi/src/core/mod.rs:527-534 | a non-zero decrease leaves the value unchanged exactly when the value is not positive or the result would be negative |
| CoreRules.PlacementFlags | komorebi/src/core/mod.rs:451-464 | a placement that resizes also centres, the two flags tell the three placements apart, and only `None` does not centre |
| CoreRules.ShouldFloatExactly | komorebi/src/core/mod.rs:442-449 | only the `Float` behaviour floats |
| CoreRules.ShouldFloat | komorebi/src/core/mod.rs:442-449 | the floating flag, with no contract of its own: `ShouldFloatExactly` states that only `Float` floats |
| CoreRules.ShouldCenter | komorebi/src/core/mod.rs:451-457 | the centring flag, with no contract of its own: `PlacementFlags` states that only `None` does not centre |
| CoreRules.ShouldResize | komorebi/src/core/mod.rs:458-464 | a placement that resizes also centres |
| CoreRules.IdentifierName | komorebi/src/core/mod.rs:358-367 | the displayed identifier kind is non-empty |
| CoreRules.IdentifierNameInjective | komorebi/src/core/mod.rs:358-367 | distinct identifier kinds display differently |
| OperationDirections.Opposite | komorebi/src/core/operation_direction.rs:23-30 | the opposite direction differs from the direction and lies on the same axis |
| OperationDirections.Flip | komorebi/src/core/operation_direction.rs:32-51 | a flip keeps a direction on its axis |
| OperationDirections.OppositeInvolution | komorebi/src/core/operation_direction.rs:23-30 | taking the opposite twice gives the direction back |
| OperationDirections.FlipIsOppositeOrSame | komorebi/src/core/operation_direction.rs:32-51 | no flip is the identity; a flip reverses exactly the directions along a flipped axis, so flipping both axes is `opposite` |
| OperationDirections.FlipInvolution | komorebi/src/core/operation_direction.rs:32-51 | flipping twice about the same axis is the identity |
| OperationDirections.FlipOpposite | komorebi/src/core/operation_direction.rs:23-51 | flipping commutes with taking the opposite |
| Directions.IndexInDirection | komorebi-layouts/src/direction.rs:56-113 | nothing exactly when `is_valid_direction` is false; otherwise (grid aside) another container index below the count, and for the grid the neighbour the grid geometry names |
| Directions.IsValidDirection | komorebi-layouts/src/direction.rs:115-171 | the validity table, with no contract of its own: `IndexInDirection` answers nothing exactly when it is false |
| Directions.UpIndex | komorebi-layouts/src/direction.rs:173-197 | moving up (grid aside) lands on a lower index |
| Directions.DownIndex | komorebi-layouts/src/direction.rs:199-217 | moving down (grid aside) lands on a higher index that is still a container |
| Directions.LeftIndex | komorebi-layouts/src/direction.rs:219-246 | moving left (grid aside) lands on another index, a container when the start is one |
| Directions.RightIndex | komorebi-layouts/src/direction.rs:248-268 | moving right (grid aside) lands on another container |
| Directions.FewerThanTwoGoNowhere | komorebi-layouts/src/direction.rs:115-124 | with fewer than two containers no move goes anywhere |
| Directions.ColumnsAndRows | komorebi-layouts/src/direction.rs:115-259 | columns never move up or down and rows never sideways; columns move left and right to the neighbouring index when there is one |
| Directions.VerticalStackSideways | komorebi-layouts/src/direction.rs:219-259 | in a vertical stack only the main container moves right, to index 1, and every other container moves left, to index 0 |
| Directions.CustomIndexInDirection | komorebi-layouts/src/direction.rs:403-549 | nothing exactly when the custom `is_valid_direction` is false, and with no more containers than columns the answer is that of `Columns` |
| Directions.CustomMovesBetweenColumns | komorebi-layouts/src/direction.rs:452-549 | with more containers than columns, up and down stay in the container's column and left and right land on the first container of the neighbouring column, which lies in that column whenever it holds a container |
| Directions.CustomRightCanLandPastEnd | komorebi-layouts/src/direction.rs:539-549 | in a valid three-column layout with four containers, the move right from container 1 lands on index 4, past the last container |
| Directions.DestinationFollowsFlip | komorebi/src/core/operation_direction.rs:53-62 | with no flip the destination is the index in the direction asked; a flip about the direction's axis reverses the move, and any other flip leaves it alone |
| Directions.DestinationInRange | komorebi/src/core/operation_direction.rs:53-62 | on a default layout other than the grid, a destination exists exactly when the flipped move is valid, and it is another container of the layout |
| Directions.Destination | komorebi/src/core/operation_direction.rs:53-62 | the index in the flipped direction, with no contract of its own: `DestinationFollowsFlip` and `DestinationInRange` state its properties |
| DefaultLayouts.Clamp | komorebi-layouts/src/default_layout.rs:35 | the clamped ratio lies in [0.1, 0.9], and a ratio already in range is kept |
| DefaultLayouts.KeptFrom | komorebi-layouts/src/default_layout.rs:31-54 | no more than the five slots that remain are filled |
| DefaultLayouts.Pad | komorebi-layouts/src/default_layout.rs:31-32 | five slots: the kept ratios first, in order, and `None` after them |
| DefaultLayouts.ValidateRatios | komorebi-layouts/src/default_layout.rs:31-54 | the loop with its running sum returns exactly the validated array |
| DefaultLayouts.ValidatedShape | komorebi-layouts/src/default_layout.rs:25-54 | a prefix of the slots is filled with the inputs clamped to [0.1, 0.9], their sum is below 1.0, and filling stops only at the end of the input, at five values, or at a value that would take the sum to 1.0 or more |
| DefaultLayouts.KeptFromValid | komorebi-layouts/src/default_layout.rs:31-54 | validating an already valid list keeps it unchanged |
| DefaultLayouts.Present | komorebi-layouts/src/default_layout.rs:188 | no more values are written than there are slots |
| DefaultLayouts.LastPresentEnd | komorebi-layouts/src/default_layout.rs:182-187 | the position one past the last filled slot: the slot before it is filled and none after it is |
| DefaultLayouts.RatiosRoundTrip | komorebi-layouts/src/default_layout.rs:160-192 | serialising a deserialised ratio array and reading it back gives the same array |
| DefaultLayouts.SerializeRatios | komorebi-layouts/src/default_layout.rs:174-192 | an array is written exactly when there is one, with no more values than slots |
| DefaultLayouts.DeserializeRatios | komorebi-layouts/src/default_layout.rs:163-171 | a list is read exactly when there is one, into the fixed array of `MAX_RATIOS` slots |
| DefaultLayouts.LeftmostIndex | komorebi-layouts/src/default_layout.rs:254-268 | a container of the layout, and 0 when there is at most one container |
| DefaultLayouts.RightmostIndex | komorebi-layouts/src/default_layout.rs:270-285 | a container of the layout, and 0 when there is at most one container |
| DefaultLayouts.OutermostIndices | komorebi-layouts/src/default_layout.rs:254-285 | from two containers on, the leftmost and rightmost containers differ; the right-main stack has 1 leftmost and 0 rightmost, the ultrawide stack 1 leftmost and the last rightmost (0 with two containers), and every other layout 0 and the last |
| DefaultLayouts.CycleNext | komorebi-layouts/src/default_layout.rs:392-404 | the next layout is never the same layout |
| DefaultLayouts.CyclePreviousAsWritten | komorebi-layouts/src/default_layout.rs:407-419 | the previous layout as written is never the same layout |
| DefaultLayouts.CyclePrevious | komorebi-layouts/src/default_layout.rs:407-419 | the corrected previous layout agrees with the written one on every layout but BSP |
| DefaultLayouts.Ord | komorebi-layouts/src/default_layout.rs:392-404 | each layout's position in the forward cycle is below nine |
| DefaultLayouts.CycleNextCoversAll | komorebi-layouts/src/default_layout.rs:692-712 | cycling forward returns to the start after exactly nine steps, not before, and reaches every layout on the way |
| DefaultLayouts.CyclePreviousAsWrittenInverse | komorebi-layouts/src/default_layout.rs:715-737 | as written, stepping back undoes stepping forward for every layout except Scrolling, whose round trip ends on RightMainVerticalStack |
| DefaultLayouts.CyclePreviousInverse | komorebi-layouts/src/default_layout.rs:392-419 | with the corrected BSP case, stepping back and stepping forward are inverse in both orders |
| DefaultLayouts.ResizeAsWritten | komorebi-layouts/src/default_layout.rs:289-389 | the grid is never resized, and a resize that leaves the zero rectangle is reported as none |
| DefaultLayouts.Resize | komorebi-layouts/src/default_layout.rs:289-389 | the corrected resize: the same for the grid and for the zero rectangle, and identical to the written one on every edge but Up |
| DefaultLayouts.ResizeBounded | komorebi-layouts/src/default_layout.rs:289-389 | a resize changes only its edge's component, by exactly its step and only to a value smaller in magnitude than the unaltered width or height |
| DefaultLayouts.ResizeAsWrittenUpUnbounded | komorebi-layouts/src/default_layout.rs:330-342 | as written, growing the top edge by 50 with a height of 100 and a top adjustment of −100 moves it to −150, beyond the height; the corrected resize refuses the step |
| CustomLayouts.NoPrimaries | komorebi/src/core/custom_layout.rs:112-121 | the primary count is zero exactly when no column is primary |
| CustomLayouts.OnePrimary | komorebi/src/core/custom_layout.rs:112-125 | with a primary column at `p`, the count is one exactly when no other column is primary |
| CustomLayouts.NoTertiaries | komorebi/src/core/custom_layout.rs:112-121 | the tertiary count is zero exactly when no column is tertiary |
| CustomLayouts.LastTertiary | komorebi/src/core/custom_layout.rs:106-125 | when the last column is tertiary, the count is one exactly when no earlier column is tertiary |
| CustomLayouts.ValidIffShaped | komorebi/src/core/custom_layout.rs:92-126 | a layout is valid exactly when it has one primary column (the first primary) before the last, horizontal secondaries elsewhere, and a horizontal tertiary column last |
| CustomLayouts.IsValid | komorebi/src/core/custom_layout.rs:92-126 | the validity test, with no contract of its own: `ValidIffShaped` states the layouts it accepts |
| CustomLayouts.PrimaryIdx | komorebi/src/core/custom_layout.rs:61-69 | the index of the first primary column, or none when no column is primary |
| CustomLayouts.ColumnContainerCounts | komorebi/src/core/custom_layout.rs:128-150 | the map has exactly the non-tertiary columns as keys, each with its capacity |
| CustomLayouts.FirstContainerIdx | komorebi/src/core/custom_layout.rs:153-164 | the sum of the capacities of the preceding columns |
| CustomLayouts.BeforeMonotone | komorebi/src/core/custom_layout.rs:153-164 | the first container index never decreases from column to column |
| CustomLayouts.ColumnForContainerIdx | komorebi/src/core/custom_layout.rs:167-189 | the loop returns the column the scan specification settles on |
| CustomLayouts.ColumnOfSpans | komorebi/src/core/custom_layout.rs:167-189 | the column found for a container spans it: the containers before it number at most the index, and unless it is the last column those up to its end number more |
| CustomLayouts.FirstContainerRoundTrip | komorebi/src/core/custom_layout.rs:153-189 | the first container of a column that holds any container maps back to that column |
| CustomLayouts.ColumnArea | komorebi/src/core/custom_layout.rs:192-210 | the strip is the work area's top and height, an equal width of `right` divided (truncating) by the number of columns less the offset, and a left edge advanced by that width once per preceding column |
| CustomLayouts.ColumnAreasAdjacent | komorebi/src/core/custom_layout.rs:192-210 | consecutive strips are adjacent and equally wide, and the first starts at the work area's left |
| Arrangement.EqualSplit | komorebi-layouts/src/arrangement.rs:922-1000 | `n` strips, one per container |
| Arrangement.Columns | komorebi-layouts/src/arrangement.rs:917-1000 | the loop without ratios yields exactly the equal split along x with the remainder added to the last column |
| Arrangement.Rows | komorebi-layouts/src/arrangement.rs:1002-1079 | the loop without ratios yields exactly the equal split along y with the remainder added to the last row |
| Arrangement.TilesSuffix | komorebi-layouts/src/arrangement.rs:977-984 | in strips that tile a span, each strip's start plus the extents from it on reach the span's end |
| Arrangement.TilesSum | komorebi-layouts/src/arrangement.rs:987-995 | strips that tile a span have extents summing to its length |
| Arrangement.ShareBounds | komorebi-layouts/src/arrangement.rs:987-995 | for a non-negative extent the equal shares fit in it and the remainder is what they leave |
| Arrangement.EqualSplitTiles | komorebi-layouts/src/arrangement.rs:941-995 | without ratios the strips start at the area's start, follow one another with no gap, keep the area's cross-axis coordinates, all but the last have the equal share, and together are exactly as long as the area |
| Arrangement.FourColumnsExample | komorebi-layouts/src/arrangement.rs:941-1000 | four columns of a 1000-wide area are 250 wide each, at 0, 250, 500 and 750 |
| Arrangement.Reversed | komorebi-layouts/src/arrangement.rs:1081-1095 | as many strips as before |
| Arrangement.ColumnsReverse | komorebi-layouts/src/arrangement.rs:1081-1087 | the array holds the reversed columns: the last at the first one's left, each earlier one at the next one's left plus width, widths unchanged |
| Arrangement.RowsReverse | komorebi-layouts/src/arrangement.rs:1089-1095 | the array holds the reversed rows: the last at the first one's top, each earlier one at the next one's top plus height, heights unchanged |
| Arrangement.ReversedLast | komorebi-layouts/src/arrangement.rs:1083 | the last strip moves to the first one's start |
| Arrangement.ReversedStep | komorebi-layouts/src/arrangement.rs:1084-1086 | each earlier strip starts where the reversed next one ends |
| Arrangement.ReversedAt | komorebi-layouts/src/arrangement.rs:1081-1095 | reversed strip `i` starts at the first start plus the extents after it, keeping its extent and cross-axis coordinates |
| Arrangement.ReversedAdjacent | komorebi-layouts/src/arrangement.rs:1081-1095 | reversed strips follow one another backwards |
| Arrangement.ReversedTiles | komorebi-layouts/src/arrangement.rs:1081-1095 | strips that tiled a span tile the same span in the opposite order, each keeping its extent and cross-axis coordinates |
| Arrangement.ResizeLeft | komorebi-layouts/src/arrangement.rs:1581-1584 | the left edge moves by half the amount, truncated, and the right edge stays put |
| Arrangement.ResizeRight | komorebi-layouts/src/arrangement.rs:1586-1588 | the right edge moves by half the amount and the left edge stays |
| Arrangement.ResizeTop | komorebi-layouts/src/arrangement.rs:1590-1593 | the top edge moves by half the amount and the bottom edge stays put |
| Arrangement.ResizeBottom | komorebi-layouts/src/arrangement.rs:1595-1597 | the bottom edge moves by half the amount and the top edge stays |
| Arrangement.HalfNeg | komorebi-layouts/src/arrangement.rs:1582-1583 | Rust's `-resize / 2` is the negation of `resize / 2` |
| Arrangement.Adjustment | komorebi-layouts/src/arrangement.rs:1296-1319 | one adjustment per strip |
| Arrangement.PartialStep | komorebi-layouts/src/arrangement.rs:1302-1314 | applying strip `i`'s request moves only the two boundaries of strip `i` |
| Arrangement.Requested | komorebi-layouts/src/arrangement.rs:1302-1314 | one turn of the loop keeps the number of adjustments |
| Arrangement.RequestedIndex | komorebi-layouts/src/arrangement.rs:1302-1314 | one turn changes the end of strip `i - 1`, both edges of strip `i` and the start of strip `i + 1`, and nothing else |
| Arrangement.RequestedAt | komorebi-layouts/src/arrangement.rs:1302-1314 | after turn `i` every strip holds the partial adjustment of the requests of strips `0..i+1` |
| Arrangement.RequestedBefore | komorebi-layouts/src/arrangement.rs:1304-1307 | the previous strip's end moves by strip `i`'s start request |
| Arrangement.RequestedOwn | komorebi-layouts/src/arrangement.rs:1304-1312 | strip `i`'s own start and end move by its two requests |
| Arrangement.RequestedAfter | komorebi-layouts/src/arrangement.rs:1309-1312 | the next strip's start moves by strip `i`'s end request |
| Arrangement.GrowEndPiece | komorebi-layouts/src/arrangement.rs:1586-1597 | moving the end edge adds half the amount to the extent |
| Arrangement.GrowStartPiece | komorebi-layouts/src/arrangement.rs:1581-1593 | moving the start edge adds half the amount to the start and takes it from the extent |
| Arrangement.RequestedStep | komorebi-layouts/src/arrangement.rs:1302-1314 | the loop invariant is kept: after turn `i` the requests of strips `0..i+1` are applied |
| Arrangement.PartialPieceComplete | komorebi-layouts/src/arrangement.rs:1296-1319 | once every request is applied, the partial adjustment is the whole one |
| Arrangement.ColumnsAdjustment | komorebi-layouts/src/arrangement.rs:1296-1319 | the loop yields the adjustment in which each boundary between columns moves by half the right request of the column before it plus half the left request of the column after it |
| Arrangement.RowsAdjustment | komorebi-layouts/src/arrangement.rs:1321-1344 | the loop yields the adjustment in which each boundary between rows moves by half the bottom request of the row before it plus half the top request of the row after it |
| Arrangement.Apply | komorebi-layouts/src/arrangement.rs:191-200 | one adjusted strip per strip |
| Arrangement.AdjustmentOfOneIsZero | komorebi-layouts/src/arrangement.rs:1299-1300 | a single strip, or none, is never adjusted |
| Arrangement.AdjustedAt | komorebi-layouts/src/arrangement.rs:191-200 | strip `i` is adjusted whether or not the adjustment list reaches it: its start moves with its own boundary and its end with the next one, each boundary past the list not moving, and its cross-axis coordinates stay |
| Arrangement.AdjustmentKeepsTiling | komorebi-layouts/src/arrangement.rs:191-200 | strips that tiled a span, adjusted by a resize list of any length, tile the span moved at its far end by the last boundary the list reaches; a list no longer than the strips leaves the span itself; cross-axis coordinates are unchanged |
| Arrangement.StripsLayout | komorebi-layouts/src/arrangement.rs:187-235 | one strip per container, for a container count `len` given independently of the resize list |
| Arrangement.AdjustedSplitTiles | komorebi-layouts/src/arrangement.rs:187-200 | the equal split adjusted by a resize list of any length tiles the area along the axis (its far edge moved when the list is longer than the count, as `zip` applies what it reaches), keeps the cross-axis coordinates, and leaves the strips past the list equal to the plain split |
| Arrangement.StripsLayoutTiles | komorebi-layouts/src/arrangement.rs:187-235 | the Columns and Rows layouts tile the area along their axis (backwards under a flip along it, from two containers on) and span it across, for any resize list; one no longer than the count, as the workspace keeps it, leaves exactly the area |
| Arrangement.ColumnsLayout | komorebi-layouts/src/arrangement.rs:187-210 | the Columns arm computes the strip layout along x for `len` containers and the given resize list |
| Arrangement.RowsLayout | komorebi-layouts/src/arrangement.rs:212-235 | the Rows arm computes the strip layout along y for `len` containers and the given resize list |
| Arrangement.NoResizeIsEqualSplit | komorebi-layouts/src/arrangement.rs:187-210 | with an empty resize list, as a new workspace has, and no flip that applies, the layout is the equal split |
| LockableSequences.InsertAt | komorebi/src/lockable_sequence.rs:29 | the value lands at `idx`, the elements before it stay and those from `idx` on move one place right |
| LockableSequences.InsertAtMultiset | komorebi/src/lockable_sequence.rs:29 | inserting adds exactly the value |
| LockableSequences.RemoveAt | komorebi/src/lockable_sequence.rs:60 | one element fewer: those before `idx` stay and those after it move one place left |
| LockableSequences.RemoveAtMultiset | komorebi/src/lockable_sequence.rs:60 | removing drops exactly the element at `idx` |
| LockableSequences.Swap | komorebi/src/lockable_sequence.rs:85 | the two positions trade elements and every other position is unchanged |
| LockableSequences.SwapMultiset | komorebi/src/lockable_sequence.rs:85 | swapping keeps the same elements |
| LockableSequences.FreeSlot | komorebi/src/lockable_sequence.rs:34-44 | the first position from `i` on that is past the end or unlocked, with only locked elements before it |
| LockableSequences.Inserted | komorebi/src/lockable_sequence.rs:21-46 | the deque grows by exactly one element |
| LockableSequences.InsertedIndex | komorebi/src/lockable_sequence.rs:21-46 | the returned index is within the grown deque and, for an index in range, not before `idx` |
| LockableSequences.InsertRespectingLocks | komorebi/src/lockable_sequence.rs:21-46 | the insertion and its left-to-right swap pass yield exactly the specified contents and returned index |
| LockableSequences.InsertedMultiset | komorebi/src/lockable_sequence.rs:21-46 | insertion adds the value and loses nothing |
| LockableSequences.InsertedPlacesValue | komorebi/src/lockable_sequence.rs:21-46 | the returned index holds the inserted value, and the elements before `idx` keep their places |
| LockableSequences.InsertedKeepsLocks | komorebi/src/lockable_sequence.rs:28-45 | inserting an unlocked value leaves every locked element at its position |
| LockableSequences.InsertedPastEndAppends | komorebi/src/lockable_sequence.rs:21-26 | an index at or past the end appends the value and returns the last index |
| LockableSequences.InsertAtLockedIndexExample | komorebi/src/lockable_sequence.rs:128-158 | inserting 99 before the element locked at index 2 gives 99, 0, 2, 1, 3, 4; inserting it at index 2 gives 0, 1, 2, 99, 3, 4 and returns 3 |
| LockableSequences.PassEnd | komorebi/src/lockable_sequence.rs:71 | the right-to-left pass stops at `idx`, or at the last index when `idx` was the end |
| LockableSequences.Removed | komorebi/src/lockable_sequence.rs:52-80 | the deque shrinks by exactly one element |
| LockableSequences.RemoveRespectingLocks | komorebi/src/lockable_sequence.rs:52-80 | out of range: no element and the deque unchanged; in range: the element at `idx` and exactly the specified contents after the removal and its right-to-left swap pass |
| LockableSequences.RemovedMultiset | komorebi/src/lockable_sequence.rs:52-80 | removal drops exactly the removed element |
| LockableSequences.RemovedKeepsPrefix | komorebi/src/lockable_sequence.rs:52-80 | the elements before `idx` keep their places |
| LockableSequences.RemovedKeepsLocks | komorebi/src/lockable_sequence.rs:67-76 | every locked element after `idx` with an unlocked element somewhere after it stays at its position |
| LockableSequences.RemovedShiftsTrailingLocks | komorebi/src/lockable_sequence.rs:67-76 | a trailing run of locked elements moves one place left, since nothing unlocked follows to swap with |
| LockableSequences.RemoveBeforeLockedExample | komorebi/src/lockable_sequence.rs:240-248 | removing index 0 from the deque locked at index 2 gives 1, 3, 2, 4, the locked element staying at index 2 |
| LockableSequences.FreeSlotShift | komorebi/src/lockable_sequence.rs:67-76 | scanning the shorter deque from `k - 1` meets the same elements as the original from `k` |
| LockableSequences.SwapRespectingLocks | komorebi/src/lockable_sequence.rs:84-90 | the two values trade places, every lock flag stays with its position, and every other position is unchanged |
| LockableSequences.SwapRespectingLocksInvolution | komorebi/src/lockable_sequence.rs:84-90 | swapping the same two positions again restores the deque |
| Rings.Ring.constructor | komorebi/src/ring.rs:49-56 | a new ring has no elements and focuses index 0 |
| Rings.Ring.Focus | komorebi/src/ring.rs:60-67 | afterwards the focused index is exactly the one given, in range or not, and the elements are unchanged |
| Rings.Ring.FocusedIdx | komorebi/src/ring.rs:64-67 | the focused index, with no contract of its own: `Focus` states that it is exactly the index last given |
| Rings.Ring.Len | komorebi/src/ring.rs:79-82 | the number of elements, with no contract of its own: `IsEmpty`, `LastIndex`, `NextIndex` and `Get` are stated against it |
| Rings.Ring.Focused | komorebi/src/ring.rs:70-72 | no element exactly when the focused index is at or past the end, and otherwise the element at the focused index |
| Rings.Ring.IsEmpty | komorebi/src/ring.rs:85-87 | true exactly when the ring has no elements |
| Rings.Ring.LastIndex | komorebi/src/ring.rs:90-92 | the index of the last element, and 0 (saturating) for an empty ring |
| Rings.Ring.NextIndex | komorebi/src/ring.rs:95-97 | the length, one past the last index unless the ring is empty |
| Rings.Ring.Get | komorebi/src/ring.rs:138-140 | an element exactly when the index is in range, and then the element at that index |
| Rings.Ring.InsertRespectingLocks | komorebi/src/ring.rs:269-295 | the elements become the lock-respecting insertion, the returned index holds the value (the last index when appending past the end), and the focus is not moved |
| Rings.Ring.RemoveRespectingLocks | komorebi/src/ring.rs:301-329 | out of range: no element and nothing changes; in range: the element at `idx`, the lock-respecting removal, and the focus is not moved |
| Rings.Ring.SwapRespectingLocks | komorebi/src/ring.rs:334-342 | the elements become the lock-respecting swap, every position keeps its lock flag, and the focus is not moved |
| LockedDeques.CountBelow | komorebi/src/locked_deque.rs:101-103 | the count of members below `x` is at most the size of the set |
| LockedDeques.CountBelowSpec | komorebi/src/locked_deque.rs:101-103 | the members before the count are below `x` and the others at or above it |
| LockedDeques.CountBelowStep | komorebi/src/locked_deque.rs:46-51 | passing `i` adds one to the count exactly when `i` is locked, and then `i` sits at the old count |
| LockedDeques.AtIsMember | komorebi/src/locked_deque.rs:46 | reading membership off the count agrees with `contains` |
| LockedDeques.Without | komorebi/src/locked_deque.rs:96-97 | the set without `x` is still a set in increasing order |
| LockedDeques.WithoutMember | komorebi/src/locked_deque.rs:96-97 | a member of the set without `x` is exactly a member other than `x` |
| LockedDeques.Trim | komorebi/src/locked_deque.rs:101-103 | popping the last member while it is at least `size` leaves an increasing set |
| LockedDeques.TrimMember | komorebi/src/locked_deque.rs:101-103 | the trimmed set holds exactly the members below `size` |
| LockedDeques.ShiftLocks | komorebi/src/locked_deque.rs:95-99 | after a locked `idx` is removed the set stays increasing and has one member fewer |
| LockedDeques.ShiftedMember | komorebi/src/locked_deque.rs:95-99 | a lock survives the shift exactly when it was below `idx`, or one index higher from `idx` up |
| LockedDeques.LocksAfterRemove | komorebi/src/locked_deque.rs:95-103 | the new lock set is increasing |
| LockedDeques.LocksAfterRemoveSpec | komorebi/src/locked_deque.rs:95-103 | removing a locked index drops it and moves every higher lock down by one, removing an unlocked index leaves the set alone, and every remaining lock is below the new length |
| LockedDeques.LockedUpToAt | komorebi/src/locked_deque.rs:42-52 | the set-aside locked elements are those at the locked indices, in index order |
| LockedDeques.PartitionMultiset | komorebi/src/locked_deque.rs:42-52 | setting elements aside loses nothing but the skipped element |
| LockedDeques.PartitionLength | komorebi/src/locked_deque.rs:42-52 | the unlocked and set-aside elements together number all but the skipped one |
| LockedDeques.LocksBelow | komorebi/src/locked_deque.rs:46-61 | the locks that index into the deque, still increasing and no more than the lock set |
| LockedDeques.LocksBelowMember | komorebi/src/locked_deque.rs:46-61 | the locks below a size are below it, and every lock below it is among them |
| LockedDeques.InsertFits | komorebi/src/locked_deque.rs:37-61 | the value's rank is within the unlocked elements, and the unlocked elements with the value inserted merge with the locked ones at their locks into a deque one longer |
| LockedDeques.InsertedKeepingLocks | komorebi/src/locked_deque.rs:26-66 | the reference insertion (the value inserted among the unlocked elements at its rank, each locked element back at its lock) is one element longer than the deque |
| LockedDeques.InsertedKeepsLocks | komorebi/src/locked_deque.rs:26-66 | every lock below the length keeps its element after the insertion |
| LockedDeques.InsertedFillsFree | komorebi/src/locked_deque.rs:37-61 | every unlocked position of the result holds the element of the unlocked elements, with the value inserted, numbered by the unlocked positions before it |
| LockedDeques.InsertedValueAt | komorebi/src/locked_deque.rs:37-61 | the unlocked position whose rank is the value's rank holds the value |
| LockedDeques.InsertedMultiset | komorebi/src/locked_deque.rs:26-66 | the insertion adds exactly the value |
| LockedDeques.UnlockedRankUnique | komorebi/src/locked_deque.rs:54-61 | two unlocked positions with the same number of unlocked positions before them are the same position, so the returned index is determined |
| LockedDeques.AllLockedBelow | komorebi/src/locked_deque.rs:37-61 | when every index is locked, every index is among the locks below the length, the length is not, and all of them lie below it |
| LockedDeques.AllLockedCount | komorebi/src/locked_deque.rs:37-61 | when every index is locked, the locks below the length number exactly the length |
| LockedDeques.InsertAllLocked | komorebi/src/locked_deque.rs:26-66 | when every index is locked the value is appended |
| LockedDeques.InsertAllLockedIndex | komorebi/src/locked_deque.rs:26-66 | when every index is locked the only unlocked position of the grown deque is the last one |
| LockedDeques.MergeInsertStep | komorebi/src/locked_deque.rs:54-61 | inserting the next set-aside element at its lock extends the merge by that lock |
| LockedDeques.InsertBeforeLockExample | komorebi/src/locked_deque.rs:129-139 | inserting 99 at index 0 of 0..4 locked at 2 gives 99, 0, 2, 1, 3, 4 |
| LockedDeques.InsertAtLockExample | komorebi/src/locked_deque.rs:141-151 | inserting 99 at the locked index 2 gives 0, 1, 2, 99, 3, 4 |
| LockedDeques.InsertAtLockIndex | komorebi/src/locked_deque.rs:141-151 | that insertion reports index 3 |
| LockedDeques.InsertBeforeTwoLocksExample | komorebi/src/locked_deque.rs:153-164 | inserting 99 at index 0 of 0..4 locked at 1 and 3 gives 99, 1, 0, 3, 2, 4 |
| LockedDeques.InsertAllLockedExample | komorebi/src/locked_deque.rs:189-201 | inserting 99 at index 2 of 0..4 with every index locked gives 0, 1, 2, 3, 4, 99 |
| LockedDeques.InsertAllLockedExampleIndex | komorebi/src/locked_deque.rs:189-201 | that insertion reports index 5, the only unlocked position |
| LockedDeques.InsertBeforeConsecutiveLocksExample | komorebi/src/locked_deque.rs:203-214 | inserting 99 at index 1 of 0..4 locked at 2 and 3 gives 0, 99, 2, 3, 1, 4 |
| LockedDeques.InsertRespectingLocks | komorebi/src/locked_deque.rs:26-66 | the deque grows by one and the returned index holds the value; every locked index keeps its element; nothing is lost; inserting at the length appends and returns that index; otherwise the result is exactly `InsertedKeepingLocks` and the returned index is the unlocked position whose rank among the unlocked positions is the rank of `idx` among the unlocked elements |
| LockedDeques.SetAside | komorebi/src/locked_deque.rs:37-52 | the drain loop splits the deque into its unlocked elements and its locked ones, in order, and the corrected index is the number of unlocked elements before `idx` |
| LockedDeques.SetAsideAll | komorebi/src/locked_deque.rs:37-52 | the two lists together are the deque, the locked list has one element per lock below the length, the `m`-th locked element is the one at the `m`-th lock, and each can be put back in range |
| LockedDeques.PutBack | komorebi/src/locked_deque.rs:54-61 | inserting the value at its corrected index and then each set-aside element at its lock yields the merge of the two lists, and the reported place is the unlocked position of the value's rank |
| LockedDeques.RemoveAsWritten | komorebi/src/locked_deque.rs:68-119 | the removal as written: the locks are trimmed, then the set-aside elements are inserted at the kept locks and at indices continuing from the unlocked elements; it panics when an insert lands past the end or the subtraction of line 107 underflows |
| LockedDeques.PutBackAsWritten | komorebi/src/locked_deque.rs:105-114 | the put-back loop as written, with its zip truncated to the shorter of the set-aside list and the kept locks extended by the indices after the unlocked elements |
| LockedDeques.RemoveAsWrittenAgrees | komorebi/src/locked_deque.rs:68-119 | when no lock is trimmed (every set-aside locked element keeps its lock), the removal as written returns exactly the corrected removal, its lock set and the removed element |
| LockedDeques.MergedByInserting | komorebi/src/locked_deque.rs:105-114 | inserting set-aside elements one by one at increasing locks that fit builds the merge of the two lists |
| LockedDeques.InsertEachMerges | komorebi/src/locked_deque.rs:105-114 | the insertion loop keeps the invariant that the elements inserted so far form the merge with the locks so far |
| LockedDeques.RemoveBeforeTwoLocksExample | komorebi/src/locked_deque.rs:303-314 | removing index 1 from 0..5 locked at 2 and 4 keeps both locks and gives 0, 3, 2, 5, 4, and the code as written agrees |
| LockedDeques.RemoveAsWrittenMisplaces | komorebi/src/locked_deque.rs:95-114 | with locks on 2 and 4, removing index 0 as written gives 1, 3, 4, 2: the element locked at 2 moves to 3 while index 2 stays locked |
| LockedDeques.RemoveKeepingLocksOfFive | komorebi/src/locked_deque.rs:95-114 | the corrected removal on the same input gives 1, 3, 2, 4 with lock 2 kept |
| LockedDeques.RemoveAsWrittenPanics | komorebi/src/locked_deque.rs:105-114 | with locks on 2 and 3, removing index 0 as written inserts at index 2 of a one-element deque, which panics |
| LockedDeques.KeptLocksFit | komorebi/src/locked_deque.rs:95-111 | every kept lock has a set-aside locked element |
| LockedDeques.KeptLockAt | komorebi/src/locked_deque.rs:95-103 | the `q`-th kept lock is the `q`-th other lock, lowered by one above a removed locked `idx`, and below the new length |
| LockedDeques.Merged | komorebi/src/locked_deque.rs:105-114 | the merged deque has exactly the new length |
| LockedDeques.MergedAnchor | komorebi/src/locked_deque.rs:105-114 | each lock receives the element set aside for it |
| LockedDeques.MergedPool | komorebi/src/locked_deque.rs:105-114 | each unlocked position receives the pooled element numbered by the unlocked positions before it |
| LockedDeques.MergedMultiset | komorebi/src/locked_deque.rs:105-114 | merging loses and gains nothing |
| LockedDeques.Merge | komorebi/src/locked_deque.rs:105-114 | the loop filling positions in order yields the merged deque |
| LockedDeques.RemovedKeepingLocks | komorebi/src/locked_deque.rs:68-119 | the deque shrinks by exactly one element |
| LockedDeques.RemovedMultiset | komorebi/src/locked_deque.rs:68-119 | removal takes out exactly the element at `idx` |
| LockedDeques.RemovedKeepsLocks | komorebi/src/locked_deque.rs:95-114 | every kept lock is below the new length and holds the element locked there before (one index higher above a removed locked `idx`) |
| LockedDeques.RemovedFillsPool | komorebi/src/locked_deque.rs:105-114 | the other positions take the unlocked elements, then the elements whose locks were trimmed, in order |
| LockedDeques.RemoveRespectingLocks | komorebi/src/locked_deque.rs:68-119 | out of range: nothing changes and no element; in range: the element at `idx`, the new lock set, and the corrected deque |
| LockedDeques.SetAsideRemoving | komorebi/src/locked_deque.rs:84-93 | the drain loop takes out the element at `idx`, notes whether it was locked, and sets the others aside in order |
| LockedDeques.TrimLocks | komorebi/src/locked_deque.rs:101-103 | the loop pops exactly the locks at or past the new length |
| LockedDeques.RemovedSetAside | komorebi/src/locked_deque.rs:84-93 | the two lists together are the deque without the element at `idx` |
| Animations.AnimationManager.constructor | komorebi/src/animation/animation_manager.rs:25-29 | a new manager knows no animations |
| Animations.AnimationManager.IsCancelled | komorebi/src/animation/animation_manager.rs:31-37 | true exactly when the key is known and has a pending cancellation |
| Animations.AnimationManager.InProgress | komorebi/src/animation/animation_manager.rs:39-45 | true exactly when the key is known and in progress |
| Animations.AnimationManager.LatestCancelIdx | komorebi/src/animation/animation_manager.rs:59-65 | the key's issued-cancellation counter, and 0 for an unknown key |
| Animations.AnimationManager.InitCancel | komorebi/src/animation/animation_manager.rs:47-57 | for a known key one more cancellation is issued and pending and the new, positive counter is returned; an unknown key gives 0 and nothing changes |
| Animations.AnimationManager.EndCancel | komorebi/src/animation/animation_manager.rs:67-71 | one pending cancellation fewer for a known key, nothing else changes |
| Animations.AnimationManager.Cancel | komorebi/src/animation/animation_manager.rs:73-77 | a known key is marked no longer in progress, nothing else changes |
| Animations.AnimationManager.Start | komorebi/src/animation/animation_manager.rs:79-93 | a new key starts in progress with no cancellations; a known key is marked in progress and keeps its counters |
| Animations.AnimationManager.End | komorebi/src/animation/animation_manager.rs:95-103 | a known key stops and is dropped unless cancellations are pending |
| Animations.AnimationManager.CountInProgress | komorebi/src/animation/animation_manager.rs:105-110 | the keys starting with the prefix number no more than all keys |
| Animations.AnimationManager.Count | komorebi/src/animation/animation_manager.rs:112-114 | the number of known keys |
| Animations.UpdatesStayConsistent | komorebi/src/animation/animation_manager.rs:47-103 | every update keeps each pending cancellation count within the issued count |
| Animations.StartNew | komorebi/src/animation/animation_manager.rs:79-89 | starting a new animation adds exactly its key, in progress with no cancellations |
| Animations.StartThenEnd | komorebi/src/animation/animation_manager.rs:79-103 | an animation started and ended with no cancellation in between leaves the map as it was |
| Animations.EndKeepsOnlyPending | komorebi/src/animation/animation_manager.rs:95-103 | ending keeps the key exactly when cancellations are pending, and then not in progress; other keys are untouched |
| Animations.IssueThenEndCancel | komorebi/src/animation/animation_manager.rs:47-71 | issuing a cancellation makes it pending, and ending it restores the state except for the advanced counter |
| Animations.CancelOnlyStops | komorebi/src/animation/animation_manager.rs:73-77 | cancelling keeps the keys and the counters and only clears the key's in-progress flag |
| ConfigGeneration.PopulateDefaultEffect | komorebi/src/core/config_generation.rs:151-160 | populating changes nothing but a missing strategy of an executable or path identifier, which becomes `Equals`; it is idempotent, and afterwards every executable and path identifier has a strategy |
| ConfigGeneration.PopulateDefault | komorebi/src/core/config_generation.rs:151-160 | afterwards every executable and path identifier has a strategy, and a configuration that already had one is unchanged |
| ConfigGeneration.RawCfgen | komorebi/src/core/config_generation.rs:24-41 | the command starts with `komorebic.exe ` and ends with the closing quote of the id |
| ConfigGeneration.RunWaitHidden | komorebi/src/core/config_generation.rs:45-50 | the AutoHotkey wrapping keeps the command intact between the `RunWait('` opening and the hidden-window closing |
| ConfigGeneration.PopulateAll | komorebi/src/core/config_generation.rs:174-176 | every configuration is populated, position by position |
| ConfigGeneration.Format | komorebi/src/core/config_generation.rs:172-180 | the result is sorted by name and is a permutation of the populated configurations |
| ConfigGeneration.LastNamed | komorebi/src/core/config_generation.rs:193-198 | the last position holding the name, or none when no entry has it |
| ConfigGeneration.Merged | komorebi/src/core/config_generation.rs:182-206 | merging never shortens the base list |
| ConfigGeneration.Merge | komorebi/src/core/config_generation.rs:182-206 | the two loops yield exactly the entry-by-entry merge, names being looked up in the original base list |
| ConfigGeneration.MergedShape | komorebi/src/core/config_generation.rs:182-206 | the merged list is the base, with entries replaced in place, followed by the overrides whose names are new, in order |
| ConfigGeneration.MergedCharacterised | komorebi/src/core/config_generation.rs:182-206 | each base position keeps its entry unless it is the last base entry of a name the overrides also have, which then holds the last override of that name; after the base come the overrides with new names, in order |
| ConfigGeneration.MergedFrom | komorebi/src/core/config_generation.rs:182-206 | every merged entry comes from one of the two lists |
| ConfigGeneration.Subcommand | komorebi/src/core/config_generation.rs:24-41 | a non-empty subcommand, none starting with the letter of `float-rule` |
| ConfigGeneration.SeenAfter | komorebi/src/core/config_generation.rs:236-254 | the float rules emitted so far only ever grow at the end |
| ConfigGeneration.Ordered | komorebi/src/core/config_generation.rs:212-218 | when no input entry asks for the deprecated option, neither does any generated entry |
| ConfigGeneration.SortedFrom | komorebi/src/core/config_generation.rs:218 | every sorted entry is one of the entries sorted |
| ConfigGeneration.WriteOptions | komorebi/src/core/config_generation.rs:226-234 | the option loop appends exactly the option lines, each tray option after its note |
| ConfigGeneration.OptionLinesStep | komorebi/src/core/config_generation.rs:227-233 | one more option appends exactly its block |
| ConfigGeneration.WriteFloatRules | komorebi/src/core/config_generation.rs:236-254 | the ignore-rule loop remembers and writes exactly the simple rules' commands not already emitted |
| ConfigGeneration.Generate | komorebi/src/core/config_generation.rs:208-317 | the header, then for each application in name order its comment, option lines, new float rules and a blank line |
| ConfigGeneration.WriteApps | komorebi/src/core/config_generation.rs:224-257 | the application loop appends exactly the body for the applications |
| ConfigGeneration.WriteApp | komorebi/src/core/config_generation.rs:225-256 | one turn appends exactly the application's lines and remembers its new float rules |
| ConfigGeneration.BodyStep | komorebi/src/core/config_generation.rs:224-257 | one more application appends its lines, given the float rules emitted before it |
| ConfigGeneration.GeneratePwsh | komorebi/src/core/config_generation.rs:208-260 | the PowerShell lines are the header and body of the generation, in PowerShell form |
| ConfigGeneration.GenerateAhk | komorebi/src/core/config_generation.rs:262-317 | the AutoHotkey lines are the header and body of the generation, each command wrapped in `RunWait` |
| ConfigGeneration.FloatLinesAppend | komorebi/src/core/config_generation.rs:240-250 | picking float-rule lines distributes over concatenation |
| ConfigGeneration.FloatLinesSingle | komorebi/src/core/config_generation.rs:240-250 | a single line is picked exactly when it is a float-rule line |
| ConfigGeneration.CommentNotFloat | komorebi/src/core/config_generation.rs:225-229 | comment lines are not float rules |
| ConfigGeneration.BlankNotFloat | komorebi/src/core/config_generation.rs:256 | blank lines are not float rules |
| ConfigGeneration.Diverge | komorebi/src/core/config_generation.rs:240 | two strings that part ways after a common start are not prefixes of one another |
| ConfigGeneration.FloatRuleIsFloatLine | komorebi/src/core/config_generation.rs:239-240 | each float rule is a float-rule line |
| ConfigGeneration.OptionLineNotFloat | komorebi/src/core/config_generation.rs:24-50 | option commands are not float-rule lines |
| ConfigGeneration.OptionLineUnprefixed | komorebi/src/core/config_generation.rs:24-41 | an option command is never taken for a float rule: it names its own subcommand where a float rule names `float-rule` |
| ConfigGeneration.AhkOptionLine | komorebi/src/core/config_generation.rs:45-50 | the AutoHotkey wrapping splits around the subcommand |
| ConfigGeneration.OptionBlockNotFloat | komorebi/src/core/config_generation.rs:228-232 | an option's lines hold no float rule |
| ConfigGeneration.OptionLinesNotFloat | komorebi/src/core/config_generation.rs:226-234 | all option lines hold no float rule |
| ConfigGeneration.NewFloatLines | komorebi/src/core/config_generation.rs:236-254 | the newly emitted rules are all float-rule lines |
| ConfigGeneration.AppFloatLines | komorebi/src/core/config_generation.rs:225-256 | an application's float-rule lines are exactly its newly emitted rules |
| ConfigGeneration.BodyFloatLines | komorebi/src/core/config_generation.rs:224-257 | the body's float-rule lines are exactly all the emitted rules |
| ConfigGeneration.SeenAfterDistinct | komorebi/src/core/config_generation.rs:242-244 | emitting keeps the rules seen free of duplicates |
| ConfigGeneration.AllSeenDistinct | komorebi/src/core/config_generation.rs:242-244 | no float rule is emitted twice over all applications |
| ConfigGeneration.GeneratedFloatRulesOnce | komorebi/src/core/config_generation.rs:208-260 | in the generated output the float-rule lines are exactly the emitted rules and none appears twice |
| ConfigGeneration.SeenAfterCovers | komorebi/src/core/config_generation.rs:236-254 | rules seen before stay seen, and every simple ignore rule's command is seen afterwards |
| ConfigGeneration.AllSeenCovers | komorebi/src/core/config_generation.rs:224-257 | every simple ignore rule of every application is emitted |
| WindowRules.NegatedStrategies | komorebi/src/window.rs:1136-1311 | each negated strategy matches exactly the windows its positive form does not |
| WindowRules.ShouldActIndividual | komorebi/src/window.rs:1103-1342 | a window whose selected text is exactly the id is matched by a missing strategy, by `Legacy` and by the four positive strategies, and by none of the four negated ones (regular expressions aside) |
| WindowRules.LegacyStrategy | komorebi/src/window.rs:1113-1135 | no strategy behaves as `Legacy`: for titles and classes "starts or ends with", for executables and paths equality |
| WindowRules.UncompiledRegexNeverMatches | komorebi/src/window.rs:1312-1339 | a pattern with no compiled regular expression matches nothing |
| WindowRules.OnlySelectedField | komorebi/src/window.rs:1105-1342 | an identifier looks only at the window text its kind selects |
| WindowRules.StrategyStrength | komorebi/src/window.rs:1136-1289 | an equal text starts and ends with the id, and a text that starts or ends with it contains it |
| WindowRules.ShouldAct | komorebi/src/window.rs:1057-1103 | the loop returns the last rule that matches, a composite rule matching when all its parts do |
| WindowRules.LastMatchingNone | komorebi/src/window.rs:1057-1103 | nothing is found exactly when no rule matches |
| WindowRules.LastMatchingIsLast | komorebi/src/window.rs:1057-1103 | the rule found matches and no rule after it does |
| WindowRules.EmptyCompositeMatches | komorebi/src/window.rs:1087-1097 | a composite rule with no parts matches every window |
| WindowRules.WidthAndHeight | komorebi/src/window.rs:340-351 | predefined ratios are landscape (21:9, 16:9, 4:3), the default is 4:3, and a custom pair is returned as given |
| RustLocator.AttributePatternNeedsLineBreak | check_schema_docs.py:72 | the third variant pattern needs a line break inside the text, so it never matches a single line of a file split at line breaks |
| RustLocator.AttributePatternMatchesTwoLines | check_schema_docs.py:72 | the third variant pattern does match an attribute followed by the variant on the next line when both are in one text |
| RustLocator.Count | check_schema_docs.py:104 | the count of a character in a line is at most the line's length, and positive exactly when the character occurs |
| RustLocator.MemberLine | check_schema_docs.py:95-111 | a line reported for a variant or property lies at or after the start and matches one of the item's patterns |
| RustLocator.DepthStep | check_schema_docs.py:102-104 | one more line adds its opening minus its closing braces to the depth, and records an opening brace if it has one |
| RustLocator.ScopeOpens | check_schema_docs.py:96-99 | a line declaring the parent type starts its scope at that line, with the braces of that line counted |
| RustLocator.ScopeContinues | check_schema_docs.py:101-111 | a line inside the parent that does not redeclare it stays in scope, and the scope carries on unless the braces opened so far are all closed |
| RustLocator.MemberLineScoped | check_schema_docs.py:95-111 | whatever the brace-tracking scan reports lies in the scope of some declaration of the parent type |
| RustLocator.MemberFoundInScope | check_schema_docs.py:89-111 | a variant or property is found only on a line that matches it and lies inside the braces of a declaration of its parent type |
| RustLocator.FirstDeclaration | check_schema_docs.py:84-87 | the result is the first line declaring `pub <keyword> <name>`, and no declaration exists when there is none |
| RustLocator.Locate | check_schema_docs.py:77-115 | a location found names one of the searched files |
| RustLocator.FindDeclaration | check_schema_docs.py:85-87 | the line-by-line search returns the first declaring line |
| RustLocator.FindMember | check_schema_docs.py:89-111 | the loop tracking `in_type`, `brace_count` and `found_open_brace` returns the line the scan specification finds |
| RustLocator.FindInFile | check_schema_docs.py:83-111 | the search of one file returns the line the specification gives: the `enum` then the `struct` declaration for a type, the scoped member line otherwise |
| RustLocator.LocateStep | check_schema_docs.py:77-113 | the search looks at the next file first and moves on to the rest only when that file is unreadable or holds nothing |
| RustLocator.FindRustDefinition | check_schema_docs.py:58-115 | the search over the files in order, skipping unreadable ones, returns the location the specification gives: the `enum` then the `struct` declaration for a type, the scoped member line otherwise, numbered from 1 |
| SchemaDocs.FirstPropertyConst | check_schema_docs.py:132-137 | a value found is the `const` of some object-valued property, and none is found only when no property carries a `const` |
| SchemaDocs.VariantIdentifierOrder | check_schema_docs.py:118-148 | a variant is named by its `const`, else a property's `const`, else its first required name, else its `type`, else "unknown", each used only when all earlier ones are absent |
| SchemaDocs.VariantIdentifier | check_schema_docs.py:118-148 | the specification of `_get_variant_identifier`, with no contract of its own: the order of its sources is stated by `VariantIdentifierOrder` and `ConstNamesVariant` |
| SchemaDocs.ConstNamesVariant | check_schema_docs.py:129-130 | a variant whose own `const` is a string is named by that string whatever else it carries |
| SchemaDocs.VariantGaps | check_schema_docs.py:177-187 | one variant gap per literal or required name, in order, under the literal's text |
| SchemaDocs.RefName | check_schema_docs.py:222 | the referenced name is the part of the `$ref` after its last `/`: a suffix holding no `/` |
| SchemaDocs.CheckTypeDescription | check_schema_docs.py:151-267 | the gaps appended by the checks on `oneOf`, `anyOf`, `enum`, `properties` or a plain `type` are those the specification of the definition gives |
| SchemaDocs.AppendVariants | check_schema_docs.py:248-249 | the loop appends one variant gap per enum literal |
| SchemaDocs.CheckOneOfVariant | check_schema_docs.py:167-200 | the four checks on one `oneOf` variant append its gaps in order: named, enum literals, required names, missing title |
| SchemaDocs.OneOfGapsStep | check_schema_docs.py:166 | one more `oneOf` variant appends its own gaps |
| SchemaDocs.CheckOneOf | check_schema_docs.py:166-200 | the loop over the `oneOf` list appends the gaps of every variant in order |
| SchemaDocs.CheckAnyOfVariant | check_schema_docs.py:219-241 | an `anyOf` variant that is not skipped appends its variant gap and then its title gap |
| SchemaDocs.AnyOfGapsStep | check_schema_docs.py:209 | one more `anyOf` variant appends its own gaps |
| SchemaDocs.CheckAnyOf | check_schema_docs.py:209-241 | the loop over the `anyOf` list skips `null` variants and bare or described references, and appends the gaps of the others in order |
| SchemaDocs.CheckProperties | check_schema_docs.py:257-259 | the loop appends one property gap per undescribed property |
| SchemaDocs.CheckTopLevelProperties | check_schema_docs.py:270-281 | the root's undescribed properties are reported under the root's name |
| SchemaDocs.ItemGapsAppend | check_schema_docs.py:166-259 | gaps naming the type and their item stay so when appended |
| SchemaDocs.OneOfVariantItems | check_schema_docs.py:167-200 | every gap of a `oneOf` variant names the type and an item, and is no type gap |
| SchemaDocs.AnyOfVariantItems | check_schema_docs.py:209-241 | every gap of an `anyOf` variant names the type and an item, and is no type gap |
| SchemaDocs.OneOfGapsItems | check_schema_docs.py:166-200 | every gap of a `oneOf` list names the type and an item |
| SchemaDocs.AnyOfGapsItems | check_schema_docs.py:209-241 | every gap of an `anyOf` list names the type and an item |
| SchemaDocs.PropertyGapsItems | check_schema_docs.py:257-259 | every property gap names the type and a property |
| SchemaDocs.TypeGapsShape | check_schema_docs.py:151-267 | every gap of a definition names its type; the type gap is reported exactly when the definition has no description and carries a shape or a concrete `type`, and only first |
| SchemaDocs.TypeGaps | check_schema_docs.py:151-267 | the specification of `check_type_description`, with no contract of its own: `CheckTypeDescription` computes it and `TypeGapsShape` states which gaps it holds |
| SchemaDocs.PropertyGapsExact | check_schema_docs.py:257-259 | a property is reported exactly when some property of that name lacks a description |
| SchemaDocs.DescribedOneOfVariant | check_schema_docs.py:167-200 | a described `oneOf` variant that is neither a string enum nor an untitled object has no gap |
| SchemaDocs.NamedOneOfVariant | check_schema_docs.py:168-172 | an undescribed variant with a truthy `const` or `title` and nothing else to check is one gap under that name |
| SchemaDocs.StringEnumOneOfVariant | check_schema_docs.py:176-180 | an unnamed string enum inside a `oneOf` is one gap per literal |
| SchemaDocs.UntitledObjectOneOfVariant | check_schema_docs.py:183-200 | an undescribed object variant without `title` or `const` is one gap per required name and then the missing title under its identifier |
| SchemaDocs.SkippedAnyOfVariant | check_schema_docs.py:210-218 | `null` variants and bare or described references contribute no gap |
| SchemaDocs.ReferenceAnyOfVariant | check_schema_docs.py:220-223 | an undescribed reference among other keys is reported first under the referenced type's name |
| SchemaDocs.PlainAnyOfVariant | check_schema_docs.py:225-230 | any other undescribed variant is reported first as a variant gap, as "unknown" when it has no truthy `const` or `type` |
| SchemaDocs.DefinitionGapsNames | check_schema_docs.py:305-312 | every gap of the definitions names a definition that is not a numbered copy of `PerAnimationPrefixConfig` |
| SchemaDocs.SchemaGapsNames | check_schema_docs.py:298-312 | every gap of a schema is filed under the root's title or under one of its definitions that is not skipped |
| SchemaDocs.DefinitionGapsStep | check_schema_docs.py:305-312 | one more definition appends its gaps unless it is skipped |
| SchemaDocs.CheckDefinitions | check_schema_docs.py:305-312 | the loop over the definitions appends the gaps of every one that is not skipped, in order |
| SchemaDocs.LocateAll | check_schema_docs.py:316-324 | every gap is kept, in order, with the location the Rust search finds for it |
| SchemaDocs.CheckSchema | check_schema_docs.py:284-326 | a missing schema gives no gaps and code 1; otherwise code 0 and every gap of the root and the name-sorted definitions, each located |
| SchemaDocs.TotalPositive | check_schema_docs.py:395-415 | a sum over the schemas is positive exactly when one schema's count is |
| SchemaDocs.TotalStep | check_schema_docs.py:395-415 | one more schema adds its count to the sum |
| SchemaDocs.CheckAndCount | check_schema_docs.py:403-415 | the error code is 1 exactly for a missing schema, and the count is that schema's number of gaps otherwise |
| SchemaDocs.RunChecks | check_schema_docs.py:375-428 | the exit code is 0 or 1, and 1 exactly when some schema is missing or some schema has a gap |
| Json.Lookup | check_schema_docs.py:132 | a key is found exactly when some field carries it, and the value found is that field's |
| Json.Or | check_schema_docs.py:168 | Python's `or` on two values is truthy exactly when one of them is |
| Json.ShowString | check_schema_docs.py:171 | `str` of a JSON string is the string itself, and only the empty string shows as empty |
| Strings.ContainsIffOccurs | komorebi/src/window.rs:1136-1289 | a text contains another exactly when it occurs at some position |
| Strings.LessOrEqualTotal | check_schema_docs.py:305 | any two names are ordered one way or the other |
| Strings.LessOrEqualTransitive | check_schema_docs.py:305 | the order of names is transitive |
| Strings.LessOrEqualAntisymmetric | check_schema_docs.py:305 | names ordered both ways are equal |
| Strings.InsertByMultiset | check_schema_docs.py:305 | inserting an entry adds exactly that entry |
| Strings.InsertBySorted | check_schema_docs.py:305 | inserting into a sorted list keeps it sorted |
| Strings.SortBySortedPermutation | check_schema_docs.py:305 | `sorted` by name gives a sorted permutation of the definitions |

## Left out

- I/O, serialisation and the OS:
  - Win32 calls, threads, channels, the reaper and the animation engine are left out.
  - Loading and saving YAML or JSON is left out; configurations and schemas arrive as values.
  - The audit's `print` output, its `print_results` report and the `relative_to` rewriting of paths are left out.
- Integer widths: `i32`, `u32` and `usize` overflow is not modelled, because coordinates and counts in the source stay far below the limits. Byte ranges are stated where the colour packing relies on them.
- `f32` arithmetic:
  - Layout ratios are `real`, with no rounding and no NaN.
  - The ratio arms of `columns_with_ratios` and `rows_with_ratios` are left out; only the path without ratios is modelled.
  - The grid layout's square-root placement is left out.
  - Directions.IndexInDirection: the answers of `is_grid_edge` and `grid_neighbor` for the grid layout are a parameter (`GridAnswer`), not computed.
- Directions.IndexInDirection: requires the starting container to be one of the `count` containers, as every caller passes the focused index.
- Directions.Destination: requires a custom layout to have at least one column. The source's `len() - 1` underflows otherwise.
- CustomLayouts.ColumnForContainerIdx: requires a non-empty layout, because the source's `len() - 1` underflows on an empty one.
- CustomLayouts.ColumnArea: requires the offset to leave at least one column. The source underflows, or divides by zero, otherwise.
- LockedDeques.InsertRespectingLocks: the `BTreeSet` of locked indices is a strictly increasing sequence (its iteration order), stated as a requirement.
- LockedDeques.RemoveRespectingLocks: the same requirement on the lock set.
- Rings.Ring.SwapRespectingLocks: requires both indices in range, where `VecDeque::swap` panics.
- LockedDeques.InsertRespectingLocks: requires `idx` to be at most the length, where `VecDeque::insert` panics; the panic is not modelled.
- Geometry.Scale: requires a non-zero system DPI, where the source's `i32` division panics; the panic is not modelled.
- Directions.CustomIndexInDirection: requires at least one column, because the source's `len() - 1` underflows on an empty layout.
- Animations.AnimationManager.EndCancel: requires a pending cancellation for a known key. The source's unsigned decrement would underflow otherwise.
- ConfigGeneration.GeneratePwsh: the deprecated `BorderOverflow` option, whose command generation panics, is excluded by a requirement (`Current`).
- ConfigGeneration.GenerateAhk: the same exclusion applies.
- Float rules are emitted only for `Simple` ignore rules, as in the source; commented-out code is not modelled.
- ConfigGeneration.Format: sorting by name is stated as sorted and a permutation. Stability among equal names is not stated.
- ConfigGeneration.Ordered: the same; stability among equal names is not stated.
- WindowRules.ShouldActIndividual: the `regex` crate is modelled as a map from pattern to matcher.
- Window text (title, executable, class, path) is given as values, not read from the window.
- Schema audit search:
  - The search paths are files given in order; `rglob`'s directory walk and its order are not modelled.
  - The two fixed schemas of `main` are generalised to any list of schemas.
- Schema audit regular expressions:
  - `\s` and `\w` are ASCII.
  - The type name is taken literally in the patterns: the source does not escape it.
  - Item names are escaped, so they match literally.
- Schema audit JSON:
  - JSON numbers are integers; floating-point numbers are left out.
  - Python's `str()` of a list or a dict is modelled with `repr` quoting of strings only; escapes inside strings are not modelled.
  - A value that is not an object is read as an empty object where the source would raise an exception.
  - Duplicate keys: the model reads the first occurrence, whereas Python's `json.load` keeps the last.
- Animations.AnimationManager.CountInProgress: the animation prefix is given as its string form.

## Findings

| source | as written | input that shows it | evidently intended | confidence | as-written member | corrected member |
|---|---|---|---|---|---|---|
| komorebi-layouts/src/default_layout.rs:407-419 | `cycle_previous(BSP)` is `RightMainVerticalStack` | `cycle_previous(cycle_next(Scrolling))`: `cycle_next(Scrolling)` is `BSP`, and stepping back from it gives `RightMainVerticalStack` | `cycle_previous(BSP)` is `Scrolling`, so that the two cycles are inverse | not executed | DefaultLayouts.CyclePreviousAsWrittenInverse | DefaultLayouts.CyclePreviousInverse |
| komorebi-layouts/src/default_layout.rs:330-342 | an Up resize checks `top + delta` but moves the top by `-delta` (and the reverse on Decrease) | Columns, unaltered `Rect(0,0,1000,100)`, resize `Some(Rect(0,-100,0,0))`, Up, Increase, delta 50: the top moves to -150, past the height | the bound is checked on the value the top moves to, as for the other three edges | not executed | DefaultLayouts.ResizeAsWrittenUpUnbounded | DefaultLayouts.ResizeBounded |
| komorebi/src/locked_deque.rs:68-119 | locks past the new length are trimmed before the locked elements are put back, and the set-aside elements are inserted lock by lock | deque `[0,1,2,3,4]`, locks `{2,4}`, remove index 0: the result is `[1,3,4,2]`, so the element locked at 2 moves to 3; deque `[0,1,2,3]`, locks `{2,3}`, remove index 0: `insert(2)` into a one-element deque panics | every lock that still fits keeps its element at its index, and the other elements fill the remaining positions in order | not executed | LockedDeques.RemoveAsWrittenMisplaces | LockedDeques.RemovedKeepsLocks |
