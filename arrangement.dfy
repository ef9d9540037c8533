// Integer geometry of the Columns and Rows layouts: splitting an area into
// equal strips whose last strip absorbs the division remainder, the resize
// adjustments that move the boundaries between strips, and the reversal used
// when a layout is flipped. Columns work along the x axis (left, width) and
// rows along the y axis (top, height); the specification functions are
// written once for both axes.

module Arrangement {

  import opened Wrappers
  import opened Geometry
  import opened OperationDirections

  /** The axis a strip layout works along: x for columns, y for rows. */
  datatype Dim = X | Y

  /** The start of a rectangle along an axis (`left` or `top`). */
  function Pos(r: Rect, d: Dim): int { if d.X? then r.left else r.top }

  /** The extent of a rectangle along an axis (`right` or `bottom`, a width or a height). */
  function Len(r: Rect, d: Dim): int { if d.X? then r.right else r.bottom }

  function WithPos(r: Rect, d: Dim, v: int): (s: Rect)
    ensures Pos(s, d) == v && Len(s, d) == Len(r, d)
  {
    if d.X? then r.(left := v) else r.(top := v)
  }

  /** The two coordinates across the axis are those of `r`. */
  predicate SameAcross(s: Rect, r: Rect, d: Dim)
  {
    if d.X? then s.top == r.top && s.bottom == r.bottom else s.left == r.left && s.right == r.right
  }

  /** The strip of `area` starting `offset` past its start, `size` long. */
  function Piece(area: Rect, d: Dim, offset: int, size: int): (r: Rect)
    ensures Pos(r, d) == Pos(area, d) + offset && Len(r, d) == size && SameAcross(r, area, d)
  {
    if d.X? then area.(left := area.left + offset, right := size)
    else area.(top := area.top + offset, bottom := size)
  }

  /** Sum of the extents along an axis of the strips from index `i` on. */
  function SuffixLen(rs: seq<Rect>, i: nat, d: Dim): int
    decreases |rs| - i
  {
    if i >= |rs| then 0 else Len(rs[i], d) + SuffixLen(rs, i + 1, d)
  }

  /** Sum of the extents along an axis (`iter().map(|r| r.right).sum()`). */
  function SumLen(rs: seq<Rect>, d: Dim): int
  {
    SuffixLen(rs, 0, d)
  }

  /** The strips follow one another without gap or overlap, from `start` to `end`. */
  predicate Tiles(rs: seq<Rect>, d: Dim, start: int, end: int)
  {
    |rs| > 0
    && Pos(rs[0], d) == start
    && (forall i :: 0 <= i < |rs| - 1 ==> Adjacent(rs, i, d))
    && Pos(rs[|rs| - 1], d) + Len(rs[|rs| - 1], d) == end
  }

  /** Strip `i + 1` starts where strip `i` ends. */
  predicate Adjacent(rs: seq<Rect>, i: nat, d: Dim)
    requires i + 1 < |rs|
  {
    Pos(rs[i], d) + Len(rs[i], d) == Pos(rs[i + 1], d)
  }

  /** Strip `i` starts where strip `i + 1` ends. */
  predicate AdjacentReversed(rs: seq<Rect>, i: nat, d: Dim)
    requires i + 1 < |rs|
  {
    Pos(rs[i + 1], d) + Len(rs[i + 1], d) == Pos(rs[i], d)
  }

  /** The strips tile from `start` to `end` in reverse order: the last one starts at `start`. */
  predicate TilesReversed(rs: seq<Rect>, d: Dim, start: int, end: int)
  {
    |rs| > 0
    && Pos(rs[|rs| - 1], d) == start
    && (forall i :: 0 <= i < |rs| - 1 ==> AdjacentReversed(rs, i, d))
    && Pos(rs[0], d) + Len(rs[0], d) == end
  }

  lemma {:induction false} TilesSuffix(rs: seq<Rect>, d: Dim, start: int, end: int, i: nat)
    requires Tiles(rs, d, start, end) && i < |rs|
    ensures end == Pos(rs[i], d) + SuffixLen(rs, i, d)
    decreases |rs| - i
  {
    if i < |rs| - 1 {
      TilesSuffix(rs, d, start, end, i + 1);
      assert Adjacent(rs, i, d);
    }
  }

  lemma TilesSum(rs: seq<Rect>, d: Dim, start: int, end: int)
    requires Tiles(rs, d, start, end)
    ensures end == start + SumLen(rs, d)
  {
    TilesSuffix(rs, d, start, end, 0);
  }

  // ------------------------------------------------------- equal splitting

  /** The equal share of `total` over `n` strips, truncated toward zero as Rust's `/` does. */
  function Share(total: int, n: nat): int
  {
    if n == 0 then 0 else TruncDiv(total, n)
  }

  /** What the last strip absorbs: the remainder of the division, when it is positive. */
  function Remainder(total: int, n: nat): int
  {
    if total - n * Share(total, n) > 0 then total - n * Share(total, n) else 0
  }

  /**
   * The strips `columns`/`rows` produce without ratios: `n` strips of equal
   * share placed one after the other, the last one widened by the remainder.
   */
  function EqualSplit(area: Rect, n: nat, d: Dim): (rs: seq<Rect>)
    ensures |rs| == n
  {
    var w := Share(Len(area, d), n);
    seq(n, i requires 0 <= i < n =>
      Piece(area, d, i * w, if i == n - 1 then w + Remainder(Len(area, d), n) else w))
  }

  /** `columns(area, len)`, i.e. `columns_with_ratios` without ratios. */
  method Columns(area: Rect, len: nat) returns (layouts: seq<Rect>)
    ensures layouts == EqualSplit(area, len, X)
  {
    ghost var w := Share(area.right, len);
    layouts := [];
    var left := 0;
    var i := 0;
    while i < len
      invariant i <= len && |layouts| == i && left == i * w
      invariant forall j :: 0 <= j < i ==> layouts[j] == Piece(area, X, j * w, w)
    {
      var right := TruncDiv(area.right, len);
      layouts := layouts + [Rect(area.left + left, area.top, right, area.bottom)];
      left := left + right;
      i := i + 1;
    }
    SumLenUniform(layouts, X, w);
    var totalWidth := SumLen(layouts, X);
    var remainder := area.right - totalWidth;
    ghost var equal := layouts;
    if remainder > 0 && |layouts| > 0 {
      var last := layouts[|layouts| - 1];
      layouts := layouts[|layouts| - 1 := last.(right := last.right + remainder)];
    }
    EqualSplitFinished(area, equal, X, w, layouts);
  }

  /** `rows(area, len)`, i.e. `rows_with_ratios` without ratios. */
  method Rows(area: Rect, len: nat) returns (layouts: seq<Rect>)
    ensures layouts == EqualSplit(area, len, Y)
  {
    ghost var h := Share(area.bottom, len);
    layouts := [];
    var top := 0;
    var i := 0;
    while i < len
      invariant i <= len && |layouts| == i && top == i * h
      invariant forall j :: 0 <= j < i ==> layouts[j] == Piece(area, Y, j * h, h)
    {
      var bottom := TruncDiv(area.bottom, len);
      layouts := layouts + [Rect(area.left, area.top + top, area.right, bottom)];
      top := top + bottom;
      i := i + 1;
    }
    SumLenUniform(layouts, Y, h);
    var totalHeight := SumLen(layouts, Y);
    var remainder := area.bottom - totalHeight;
    ghost var equal := layouts;
    if remainder > 0 && |layouts| > 0 {
      var last := layouts[|layouts| - 1];
      layouts := layouts[|layouts| - 1 := last.(bottom := last.bottom + remainder)];
    }
    EqualSplitFinished(area, equal, Y, h, layouts);
  }

  /** Widening the last of `n` equal strips by the remainder yields the equal split. */
  lemma EqualSplitFinished(area: Rect, equal: seq<Rect>, d: Dim, w: int, rs: seq<Rect>)
    requires w == Share(Len(area, d), |equal|) && SumLen(equal, d) == |equal| * w
    requires forall j :: 0 <= j < |equal| ==> equal[j] == Piece(area, d, j * w, w)
    requires var rem := Len(area, d) - SumLen(equal, d);
      rs == if rem > 0 && |equal| > 0
        then equal[|equal| - 1 := Piece(area, d, (|equal| - 1) * w, w + rem)]
        else equal
    ensures rs == EqualSplit(area, |equal|, d)
  {
    var n := |equal|;
    var split := EqualSplit(area, n, d);
    forall j | 0 <= j < n
      ensures rs[j] == split[j]
    {
      if j == n - 1 {
        assert Remainder(Len(area, d), n) == if Len(area, d) - n * w > 0 then Len(area, d) - n * w else 0;
      }
    }
  }

  lemma {:induction false} SuffixLenUniform(rs: seq<Rect>, d: Dim, w: int, i: nat)
    requires i <= |rs|
    requires forall j :: 0 <= j < |rs| ==> Len(rs[j], d) == w
    ensures SuffixLen(rs, i, d) == (|rs| - i) * w
    decreases |rs| - i
  {
    if i < |rs| {
      SuffixLenUniform(rs, d, w, i + 1);
      assert (|rs| - i) * w == (|rs| - (i + 1)) * w + w;
    }
  }

  lemma SumLenUniform(rs: seq<Rect>, d: Dim, w: int)
    requires forall j :: 0 <= j < |rs| ==> Len(rs[j], d) == w
    ensures SumLen(rs, d) == |rs| * w
  {
    SuffixLenUniform(rs, d, w, 0);
  }

  lemma ShareBounds(total: int, n: nat)
    requires n > 0 && total >= 0
    ensures 0 <= n * Share(total, n) <= total
    ensures Remainder(total, n) == total - n * Share(total, n)
  {
    assert Share(total, n) == total / n;
  }

  /**
   * Without ratios the strips cover the area exactly: they keep the area's
   * extent across the axis, start at its start, follow one another with no
   * gap, all but the last have the equal share, and together they are as long
   * as the area.
   */
  lemma EqualSplitTiles(area: Rect, n: nat, d: Dim)
    requires n > 0 && Len(area, d) >= 0
    ensures var rs := EqualSplit(area, n, d);
      Tiles(rs, d, Pos(area, d), Pos(area, d) + Len(area, d))
      && (forall i :: 0 <= i < n ==> SameAcross(rs[i], area, d))
      && (forall i :: 0 <= i < n - 1 ==> Len(rs[i], d) == Share(Len(area, d), n))
      && SumLen(rs, d) == Len(area, d)
  {
    var rs := EqualSplit(area, n, d);
    var w := Share(Len(area, d), n);
    ShareBounds(Len(area, d), n);
    forall i | 0 <= i < n - 1
      ensures Pos(rs[i], d) + Len(rs[i], d) == Pos(rs[i + 1], d)
    {
      assert i * w + w == (i + 1) * w;
    }
    assert (n - 1) * w + w == n * w;
    TilesSum(rs, d, Pos(area, d), Pos(area, d) + Len(area, d));
  }

  /** Four columns of a 1000-wide area are 250 wide each. */
  lemma FourColumnsExample()
    ensures EqualSplit(Rect(0, 0, 1000, 800), 4, X)
         == [Rect(0, 0, 250, 800), Rect(250, 0, 250, 800), Rect(500, 0, 250, 800), Rect(750, 0, 250, 800)]
  {
  }

  // ------------------------------------------------------------- reversal

  /**
   * The strips re-placed in reverse order along the axis: the last starts at
   * the first one's start and each earlier strip follows the next one.
   */
  function Reversed(rs: seq<Rect>, d: Dim): (out: seq<Rect>)
    requires |rs| > 0
    ensures |out| == |rs|
  {
    seq(|rs|, i requires 0 <= i < |rs| => WithPos(rs[i], d, Pos(rs[0], d) + SuffixLen(rs, i + 1, d)))
  }

  /** `columns_reverse`: rewrites each column's left edge from the last column back to the first. */
  method ColumnsReverse(a: array<Rect>)
    requires a.Length >= 1
    modifies a
    ensures a[..] == Reversed(old(a[..]), X)
  {
    ghost var s := a[..];
    ghost var rev := Reversed(s, X);
    var len := a.Length;
    ReversedLast(s, X);
    a[len - 1] := a[len - 1].(left := a[0].left);
    var i := len - 1;
    while i > 0
      invariant 0 <= i <= len - 1
      invariant forall j :: 0 <= j < i ==> a[j] == s[j]
      invariant forall j :: i <= j < len ==> a[j] == rev[j]
    {
      i := i - 1;
      ReversedStep(s, X, i);
      a[i] := a[i].(left := a[i + 1].left + a[i + 1].right);
    }
  }

  /** `rows_reverse`: rewrites each row's top edge from the last row back to the first. */
  method RowsReverse(a: array<Rect>)
    requires a.Length >= 1
    modifies a
    ensures a[..] == Reversed(old(a[..]), Y)
  {
    ghost var s := a[..];
    ghost var rev := Reversed(s, Y);
    var len := a.Length;
    ReversedLast(s, Y);
    a[len - 1] := a[len - 1].(top := a[0].top);
    var i := len - 1;
    while i > 0
      invariant 0 <= i <= len - 1
      invariant forall j :: 0 <= j < i ==> a[j] == s[j]
      invariant forall j :: i <= j < len ==> a[j] == rev[j]
    {
      i := i - 1;
      ReversedStep(s, Y, i);
      a[i] := a[i].(top := a[i + 1].top + a[i + 1].bottom);
    }
  }

  /** The last strip moves to the first one's start. */
  lemma ReversedLast(rs: seq<Rect>, d: Dim)
    requires |rs| > 0
    ensures Reversed(rs, d)[|rs| - 1] == WithPos(rs[|rs| - 1], d, Pos(rs[0], d))
  {
  }

  /** Each earlier strip starts where the reversed next one ends. */
  lemma ReversedStep(rs: seq<Rect>, d: Dim, i: nat)
    requires i + 1 < |rs|
    ensures Reversed(rs, d)[i] == WithPos(rs[i], d, Pos(Reversed(rs, d)[i + 1], d) + Len(Reversed(rs, d)[i + 1], d))
  {
    ReversedAt(rs, d, i + 1);
  }

  lemma ReversedAt(rs: seq<Rect>, d: Dim, i: nat)
    requires i < |rs|
    ensures Pos(Reversed(rs, d)[i], d) == Pos(rs[0], d) + SuffixLen(rs, i + 1, d)
    ensures Len(Reversed(rs, d)[i], d) == Len(rs[i], d)
    ensures SameAcross(Reversed(rs, d)[i], rs[i], d)
  {
  }

  /** Reversed strips follow one another backwards. */
  lemma ReversedAdjacent(rs: seq<Rect>, d: Dim)
    requires |rs| > 0
    ensures forall i :: 0 <= i < |rs| - 1 ==> AdjacentReversed(Reversed(rs, d), i, d)
  {
    forall i | 0 <= i < |rs| - 1
      ensures AdjacentReversed(Reversed(rs, d), i, d)
    {
      ReversedAt(rs, d, i);
      ReversedAt(rs, d, i + 1);
    }
  }

  /**
   * Reversing strips that tile a span makes them tile the same span in the
   * opposite order, each keeping its extent and its cross-axis coordinates.
   */
  lemma ReversedTiles(rs: seq<Rect>, d: Dim, start: int, end: int)
    requires Tiles(rs, d, start, end)
    ensures TilesReversed(Reversed(rs, d), d, start, end)
    ensures forall i :: 0 <= i < |rs| ==>
      Len(Reversed(rs, d)[i], d) == Len(rs[i], d) && SameAcross(Reversed(rs, d)[i], rs[i], d)
  {
    ReversedAdjacent(rs, d);
    ReversedAt(rs, d, 0);
    ReversedAt(rs, d, |rs| - 1);
    TilesSum(rs, d, start, end);
    forall i | 0 <= i < |rs|
      ensures Len(Reversed(rs, d)[i], d) == Len(rs[i], d) && SameAcross(Reversed(rs, d)[i], rs[i], d)
    {
      ReversedAt(rs, d, i);
    }
  }

  // ------------------------------------------------------ resize adjustment

  function Half(x: int): int { TruncDiv(x, 2) }

  /** `resize_left`: the left edge moves by half the amount; the right edge stays. */
  function ResizeLeft(r: Rect, resize: int): (s: Rect)
    ensures s.left == r.left + Half(resize) && s.left + s.right == r.left + r.right
    ensures s.top == r.top && s.bottom == r.bottom
  {
    r.(left := r.left + Half(resize), right := r.right + TruncDiv(-resize, 2))
  }

  /** `resize_right`: the right edge moves by half the amount; the left edge stays. */
  function ResizeRight(r: Rect, resize: int): (s: Rect)
    ensures s.left == r.left && s.left + s.right == r.left + r.right + Half(resize)
    ensures s.top == r.top && s.bottom == r.bottom
  {
    r.(right := r.right + Half(resize))
  }

  /** `resize_top`: the top edge moves by half the amount; the bottom edge stays. */
  function ResizeTop(r: Rect, resize: int): (s: Rect)
    ensures s.top == r.top + Half(resize) && s.top + s.bottom == r.top + r.bottom
    ensures s.left == r.left && s.right == r.right
  {
    r.(top := r.top + Half(resize), bottom := r.bottom + TruncDiv(-resize, 2))
  }

  /** `resize_bottom`: the bottom edge moves by half the amount; the top edge stays. */
  function ResizeBottom(r: Rect, resize: int): (s: Rect)
    ensures s.top == r.top && s.top + s.bottom == r.top + r.bottom + Half(resize)
    ensures s.left == r.left && s.right == r.right
  {
    r.(bottom := r.bottom + Half(resize))
  }

  /** Half of the start (`lo`) or the extent (`!lo`) of a requested resize, 0 when there is none. */
  function HalfOf(r: Option<Rect>, d: Dim, lo: bool): int
  {
    match r
    case None => 0
    case Some(x) => Half(if lo then Pos(x, d) else Len(x, d))
  }

  /**
   * How far the boundary between strip `b - 1` and strip `b` moves: strip
   * `b`'s request on its start edge plus strip `b - 1`'s request on its end
   * edge. The outer edges (`b == 0`, `b == n`) never move.
   */
  function Shift(dims: seq<Option<Rect>>, b: nat, d: Dim): int
  {
    if b == 0 || b >= |dims| then 0 else HalfOf(dims[b], d, true) + HalfOf(dims[b - 1], d, false)
  }

  /** The adjustment of every strip: its start moves with its first boundary, its end with the next. */
  function Adjustment(dims: seq<Option<Rect>>, d: Dim): (adj: seq<Rect>)
    ensures |adj| == |dims|
  {
    seq(|dims|, k requires 0 <= k < |dims| =>
      Piece(Zero, d, Shift(dims, k, d), Shift(dims, k + 1, d) - Shift(dims, k, d)))
  }

  /** The boundary shift after the requests of strips `0..i` have been applied. */
  function PartialShift(dims: seq<Option<Rect>>, b: nat, i: nat, d: Dim): int
  {
    if b == 0 || b >= |dims| then 0
    else (if b < i then HalfOf(dims[b], d, true) else 0) + (if b - 1 < i then HalfOf(dims[b - 1], d, false) else 0)
  }

  /** Strip `k`'s adjustment after the requests of strips `0..i` have been applied. */
  function PartialPiece(dims: seq<Option<Rect>>, k: nat, i: nat, d: Dim): Rect
  {
    Piece(Zero, d, PartialShift(dims, k, i, d), PartialShift(dims, k + 1, i, d) - PartialShift(dims, k, i, d))
  }

  /** Halving is odd: Rust's `-resize / 2` is the negation of `resize / 2`. */
  lemma HalfNeg(x: int)
    ensures TruncDiv(-x, 2) == -Half(x)
  {
  }

  /** Applying strip `i`'s request moves only the two boundaries of strip `i`. */
  lemma PartialStep(dims: seq<Option<Rect>>, k: nat, i: nat, d: Dim)
    requires k < |dims| && i < |dims|
    ensures PartialShift(dims, k, i + 1, d)
      == PartialShift(dims, k, i, d) + (if k == i && k != 0 then HalfOf(dims[i], d, true) else 0)
         + (if k == i + 1 && k < |dims| then HalfOf(dims[i], d, false) else 0)
    ensures PartialShift(dims, k + 1, i + 1, d)
      == PartialShift(dims, k + 1, i, d) + (if k + 1 == i then HalfOf(dims[i], d, true) else 0)
         + (if k == i && k + 1 < |dims| then HalfOf(dims[i], d, false) else 0)
  {
  }

  /** Moving the end edge of `r` along `d` (`resize_right` or `resize_bottom`). */
  function GrowEnd(r: Rect, d: Dim, resize: int): Rect
  {
    if d.X? then ResizeRight(r, resize) else ResizeBottom(r, resize)
  }

  /** Moving the start edge of `r` along `d` (`resize_left` or `resize_top`). */
  function GrowStart(r: Rect, d: Dim, resize: int): Rect
  {
    if d.X? then ResizeLeft(r, resize) else ResizeTop(r, resize)
  }

  /**
   * One turn of the adjustment loop: strip `i`'s request moves the boundary
   * before it (unless it is the first strip) and the one after it (unless it
   * is the last).
   */
  function Requested(prev: seq<Rect>, i: nat, req: Option<Rect>, d: Dim): (r: seq<Rect>)
    requires i < |prev|
    ensures |r| == |prev|
  {
    match req
    case None => prev
    case Some(rect) =>
      var p := if i != 0 then prev[i - 1 := GrowEnd(prev[i - 1], d, Pos(rect, d))][i := GrowStart(prev[i], d, Pos(rect, d))] else prev;
      if i != |prev| - 1 then p[i := GrowEnd(p[i], d, Len(rect, d))][i + 1 := GrowStart(p[i + 1], d, Len(rect, d))] else p
  }

  /** Where turn `i` of the loop changes strip `k`. */
  lemma RequestedIndex(prev: seq<Rect>, i: nat, rect: Rect, d: Dim, k: nat)
    requires i < |prev| && k < |prev|
    ensures var r, a, b := Requested(prev, i, Some(rect), d), Pos(rect, d), Len(rect, d);
      && (k + 1 == i ==> r[k] == GrowEnd(prev[k], d, a))
      && (k == i ==> r[k] == var s := if i != 0 then GrowStart(prev[k], d, a) else prev[k];
                           if i != |prev| - 1 then GrowEnd(s, d, b) else s)
      && (k == i + 1 ==> r[k] == GrowStart(prev[k], d, b))
      && (k + 1 != i && k != i && k != i + 1 ==> r[k] == prev[k])
  {
  }

  lemma RequestedAt(dims: seq<Option<Rect>>, prev: seq<Rect>, i: nat, d: Dim, k: nat)
    requires |prev| == |dims| && i < |dims| && k < |dims|
    requires forall j :: 0 <= j < |dims| ==> prev[j] == PartialPiece(dims, j, i, d)
    ensures Requested(prev, i, dims[i], d)[k] == PartialPiece(dims, k, i + 1, d)
  {
    assert prev[k] == PartialPiece(dims, k, i, d);
    if dims[i].None? {
      PartialStep(dims, k, i, d);
    } else {
      RequestedIndex(prev, i, dims[i].value, d, k);
      if k + 1 == i {
        RequestedBefore(dims, prev[k], i, d);
      } else if k == i {
        RequestedOwn(dims, prev[k], i, d);
      } else if k == i + 1 {
        RequestedAfter(dims, prev[k], i, d);
      } else {
        PartialStep(dims, k, i, d);
      }
    }
  }

  lemma RequestedBefore(dims: seq<Option<Rect>>, before: Rect, i: nat, d: Dim)
    requires 0 < i < |dims| && dims[i].Some?
    requires before == PartialPiece(dims, i - 1, i, d)
    ensures GrowEnd(before, d, Pos(dims[i].value, d)) == PartialPiece(dims, i - 1, i + 1, d)
  {
    var p, q := PartialShift(dims, i - 1, i, d), PartialShift(dims, i, i, d);
    PartialStep(dims, i - 1, i, d);
    GrowEndPiece(p, q - p, d, Pos(dims[i].value, d));
  }

  lemma RequestedOwn(dims: seq<Option<Rect>>, own: Rect, i: nat, d: Dim)
    requires i < |dims| && dims[i].Some?
    requires own == PartialPiece(dims, i, i, d)
    ensures var a, b := Pos(dims[i].value, d), Len(dims[i].value, d);
      var s := if i != 0 then GrowStart(own, d, a) else own;
      (if i != |dims| - 1 then GrowEnd(s, d, b) else s) == PartialPiece(dims, i, i + 1, d)
  {
    var a, b := Pos(dims[i].value, d), Len(dims[i].value, d);
    var p, q := PartialShift(dims, i, i, d), PartialShift(dims, i + 1, i, d);
    PartialStep(dims, i, i, d);
    var da := if i != 0 then Half(a) else 0;
    GrowStartPiece(p, q - p, d, a);
    GrowEndPiece(p + da, q - p - da, d, b);
  }

  lemma RequestedAfter(dims: seq<Option<Rect>>, after: Rect, i: nat, d: Dim)
    requires i + 1 < |dims| && dims[i].Some?
    requires after == PartialPiece(dims, i + 1, i, d)
    ensures GrowStart(after, d, Len(dims[i].value, d)) == PartialPiece(dims, i + 1, i + 1, d)
  {
    var p, q := PartialShift(dims, i + 1, i, d), PartialShift(dims, i + 2, i, d);
    PartialStep(dims, i + 1, i, d);
    GrowStartPiece(p, q - p, d, Len(dims[i].value, d));
  }

  lemma GrowEndPiece(p: int, l: int, d: Dim, resize: int)
    ensures GrowEnd(Piece(Zero, d, p, l), d, resize) == Piece(Zero, d, p, l + Half(resize))
  {
  }

  lemma GrowStartPiece(p: int, l: int, d: Dim, resize: int)
    ensures GrowStart(Piece(Zero, d, p, l), d, resize) == Piece(Zero, d, p + Half(resize), l - Half(resize))
  {
    HalfNeg(resize);
  }

  /** The loop invariant is kept: after turn `i`, the requests of strips `0..i+1` are applied. */
  lemma RequestedStep(dims: seq<Option<Rect>>, prev: seq<Rect>, i: nat, d: Dim)
    requires |prev| == |dims| && i < |dims|
    requires forall j :: 0 <= j < |dims| ==> prev[j] == PartialPiece(dims, j, i, d)
    ensures forall k :: 0 <= k < |dims| ==> Requested(prev, i, dims[i], d)[k] == PartialPiece(dims, k, i + 1, d)
  {
    forall k | 0 <= k < |dims|
      ensures Requested(prev, i, dims[i], d)[k] == PartialPiece(dims, k, i + 1, d)
    {
      RequestedAt(dims, prev, i, d, k);
    }
  }

  /** Once every request is applied, the partial adjustment is the whole one. */
  lemma PartialPieceComplete(dims: seq<Option<Rect>>, k: nat, d: Dim)
    requires k < |dims|
    ensures PartialPiece(dims, k, |dims|, d) == Adjustment(dims, d)[k]
  {
  }

  /** `calculate_columns_adjustment`. */
  method ColumnsAdjustment(dims: seq<Option<Rect>>) returns (result: seq<Rect>)
    ensures result == Adjustment(dims, X)
  {
    var len := |dims|;
    result := seq(len, _ => Zero);
    if len <= 1 {
      return;
    }
    var i := 0;
    while i < len
      invariant i <= len && |result| == len
      invariant forall k :: 0 <= k < len ==> result[k] == PartialPiece(dims, k, i, X)
    {
      ghost var prev := result;
      if dims[i].Some? {
        var rect := dims[i].value;
        HalfNeg(rect.left);
        HalfNeg(rect.right);
        if i != 0 {
          result := result[i - 1 := ResizeRight(result[i - 1], rect.left)];
          result := result[i := ResizeLeft(result[i], rect.left)];
        }
        if i != len - 1 {
          result := result[i := ResizeRight(result[i], rect.right)];
          result := result[i + 1 := ResizeLeft(result[i + 1], rect.right)];
        }
      }
      assert result == Requested(prev, i, dims[i], X);
      RequestedStep(dims, prev, i, X);
      i := i + 1;
    }
    forall k | 0 <= k < len
      ensures result[k] == Adjustment(dims, X)[k]
    {
      PartialPieceComplete(dims, k, X);
    }
  }

  /** `calculate_rows_adjustment`. */
  method RowsAdjustment(dims: seq<Option<Rect>>) returns (result: seq<Rect>)
    ensures result == Adjustment(dims, Y)
  {
    var len := |dims|;
    result := seq(len, _ => Zero);
    if len <= 1 {
      return;
    }
    var i := 0;
    while i < len
      invariant i <= len && |result| == len
      invariant forall k :: 0 <= k < len ==> result[k] == PartialPiece(dims, k, i, Y)
    {
      ghost var prev := result;
      if dims[i].Some? {
        var rect := dims[i].value;
        HalfNeg(rect.top);
        HalfNeg(rect.bottom);
        if i != 0 {
          result := result[i - 1 := ResizeBottom(result[i - 1], rect.top)];
          result := result[i := ResizeTop(result[i], rect.top)];
        }
        if i != len - 1 {
          result := result[i := ResizeBottom(result[i], rect.bottom)];
          result := result[i + 1 := ResizeTop(result[i + 1], rect.bottom)];
        }
      }
      assert result == Requested(prev, i, dims[i], Y);
      RequestedStep(dims, prev, i, Y);
      i := i + 1;
    }
    forall k | 0 <= k < len
      ensures result[k] == Adjustment(dims, Y)[k]
    {
      PartialPieceComplete(dims, k, Y);
    }
  }

  /** Adding an adjustment to each layout, field by field (the `zip` in the Columns/Rows arms). */
  function Apply(layouts: seq<Rect>, adj: seq<Rect>): (out: seq<Rect>)
    ensures |out| == |layouts|
  {
    seq(|layouts|, i requires 0 <= i < |layouts| =>
      if i < |adj| then
        Rect(layouts[i].left + adj[i].left, layouts[i].top + adj[i].top,
             layouts[i].right + adj[i].right, layouts[i].bottom + adj[i].bottom)
      else layouts[i])
  }

  /** A single strip, or none, is never adjusted. */
  lemma AdjustmentOfOneIsZero(dims: seq<Option<Rect>>, d: Dim)
    requires |dims| <= 1
    ensures forall k :: 0 <= k < |dims| ==> Adjustment(dims, d)[k] == Zero
  {
  }

  /**
   * Resize adjustments move only the boundaries between strips. The `zip`
   * pairs the strips with as many adjustments as there are of both: a strip
   * past the end of the resize list is left alone, which agrees with the
   * formula below since the shifts past the list are zero.
   */
  lemma AdjustedAt(layouts: seq<Rect>, dims: seq<Option<Rect>>, d: Dim, i: nat)
    requires i < |layouts|
    ensures var out := Apply(layouts, Adjustment(dims, d));
      Pos(out[i], d) == Pos(layouts[i], d) + Shift(dims, i, d)
      && Len(out[i], d) == Len(layouts[i], d) + Shift(dims, i + 1, d) - Shift(dims, i, d)
      && SameAcross(out[i], layouts[i], d)
  {
  }

  /**
   * Strips that tiled a span still tile it after the adjustment, except that
   * the far edge moves by the shift of the boundary after the last strip,
   * which is zero unless the resize list is longer than the strips.
   */
  lemma AdjustmentKeepsTiling(layouts: seq<Rect>, dims: seq<Option<Rect>>, d: Dim, start: int, end: int)
    requires Tiles(layouts, d, start, end)
    ensures Tiles(Apply(layouts, Adjustment(dims, d)), d, start, end + Shift(dims, |layouts|, d))
    ensures |dims| <= |layouts| ==> Tiles(Apply(layouts, Adjustment(dims, d)), d, start, end)
    ensures forall i :: 0 <= i < |layouts| ==> SameAcross(Apply(layouts, Adjustment(dims, d))[i], layouts[i], d)
  {
    var out := Apply(layouts, Adjustment(dims, d));
    forall i | 0 <= i < |layouts| - 1
      ensures Adjacent(out, i, d)
    {
      assert Adjacent(layouts, i, d);
      AdjustedAt(layouts, dims, d, i);
      AdjustedAt(layouts, dims, d, i + 1);
    }
    forall i | 0 <= i < |layouts|
      ensures SameAcross(out[i], layouts[i], d)
    {
      AdjustedAt(layouts, dims, d, i);
    }
    AdjustedAt(layouts, dims, d, 0);
    AdjustedAt(layouts, dims, d, |layouts| - 1);
  }

  // ------------------------------------------------- the Columns and Rows arms

  /** Whether a flip reverses strips laid out along `d`. */
  predicate FlipsAlong(flip: Option<Axis>, d: Dim)
  {
    flip.Some? && (flip.value.HorizontalAndVertical? || (flip.value.Horizontal? <==> d.X?))
  }

  /**
   * The Columns (`d == X`) or Rows (`d == Y`) arm of the arrangement without
   * ratios for `len` containers: equal strips, the resize adjustment added
   * strip by strip as far as both lists go, and the strips reversed under a
   * flip along the axis when there are at least two.
   */
  function StripsLayout(area: Rect, len: nat, dims: seq<Option<Rect>>, flip: Option<Axis>, d: Dim): (rs: seq<Rect>)
    requires len > 0
    ensures |rs| == len
  {
    var adjusted := Apply(EqualSplit(area, len, d), Adjustment(dims, d));
    if FlipsAlong(flip, d) && len >= 2 then Reversed(adjusted, d) else adjusted
  }

  /**
   * The adjusted equal split spans the area across and tiles it along the
   * axis, its far edge moved by the boundary shift after the last container
   * (none when the resize list is no longer than the containers); the strips
   * past the end of the resize list are those of the equal split.
   */
  lemma AdjustedSplitTiles(area: Rect, len: nat, dims: seq<Option<Rect>>, d: Dim)
    requires len > 0 && Len(area, d) >= 0
    ensures var rs := Apply(EqualSplit(area, len, d), Adjustment(dims, d));
      && (forall i :: 0 <= i < |rs| ==> SameAcross(rs[i], area, d))
      && Tiles(rs, d, Pos(area, d), Pos(area, d) + Len(area, d) + Shift(dims, len, d))
      && (|dims| <= len ==> Tiles(rs, d, Pos(area, d), Pos(area, d) + Len(area, d)))
      && (forall i :: |dims| <= i < len ==> rs[i] == EqualSplit(area, len, d)[i])
  {
    var split := EqualSplit(area, len, d);
    EqualSplitTiles(area, len, d);
    AdjustmentKeepsTiling(split, dims, d, Pos(area, d), Pos(area, d) + Len(area, d));
    var adjusted := Apply(split, Adjustment(dims, d));
    forall i | 0 <= i < len
      ensures SameAcross(adjusted[i], area, d)
    {
      assert SameAcross(adjusted[i], split[i], d) && SameAcross(split[i], area, d);
    }
  }

  /** With no resize request recorded, the Columns and Rows arms give the equal split. */
  lemma NoResizeIsEqualSplit(area: Rect, len: nat, flip: Option<Axis>, d: Dim)
    requires len > 0 && !(FlipsAlong(flip, d) && len >= 2)
    ensures StripsLayout(area, len, [], flip, d) == EqualSplit(area, len, d)
  {
  }

  /** The strips tile the area along the axis, backwards under a flip, and span it across. */
  lemma StripsLayoutTiles(area: Rect, len: nat, dims: seq<Option<Rect>>, flip: Option<Axis>, d: Dim)
    requires len > 0 && Len(area, d) >= 0
    ensures var rs, end := StripsLayout(area, len, dims, flip, d), Pos(area, d) + Len(area, d) + Shift(dims, len, d);
      && (|dims| <= len ==> end == Pos(area, d) + Len(area, d))
      && (forall i :: 0 <= i < |rs| ==> SameAcross(rs[i], area, d))
      && (FlipsAlong(flip, d) && len >= 2 ==> TilesReversed(rs, d, Pos(area, d), end))
      && (!(FlipsAlong(flip, d) && len >= 2) ==> Tiles(rs, d, Pos(area, d), end))
  {
    var adjusted := Apply(EqualSplit(area, len, d), Adjustment(dims, d));
    var end := Pos(area, d) + Len(area, d) + Shift(dims, len, d);
    AdjustedSplitTiles(area, len, dims, d);
    if FlipsAlong(flip, d) && len >= 2 {
      ReversedTiles(adjusted, d, Pos(area, d), end);
      var rs := Reversed(adjusted, d);
      forall i | 0 <= i < len
        ensures SameAcross(rs[i], area, d)
      {
        assert SameAcross(rs[i], adjusted[i], d) && SameAcross(adjusted[i], area, d);
      }
    }
  }

  /** The Columns arm: `columns`, `calculate_columns_adjustment`, the `zip`, and `columns_reverse` under a horizontal flip. */
  method ColumnsLayout(area: Rect, len: nat, dims: seq<Option<Rect>>, flip: Option<Axis>) returns (layouts: seq<Rect>)
    requires len > 0
    ensures layouts == StripsLayout(area, len, dims, flip, X)
  {
    var split := Columns(area, len);
    var adjustment := ColumnsAdjustment(dims);
    layouts := Apply(split, adjustment);
    if FlipsAlong(flip, X) && len >= 2 {
      var a := new Rect[|layouts|](i requires 0 <= i < |layouts| => layouts[i]);
      assert a[..] == layouts;
      ColumnsReverse(a);
      layouts := a[..];
    }
  }

  /** The Rows arm: `rows`, `calculate_rows_adjustment`, the `zip`, and `rows_reverse` under a vertical flip. */
  method RowsLayout(area: Rect, len: nat, dims: seq<Option<Rect>>, flip: Option<Axis>) returns (layouts: seq<Rect>)
    requires len > 0
    ensures layouts == StripsLayout(area, len, dims, flip, Y)
  {
    var split := Rows(area, len);
    var adjustment := RowsAdjustment(dims);
    layouts := Apply(split, adjustment);
    if FlipsAlong(flip, Y) && len >= 2 {
      var a := new Rect[|layouts|](i requires 0 <= i < |layouts| => layouts[i]);
      assert a[..] == layouts;
      RowsReverse(a);
      layouts := a[..];
    }
  }
}
