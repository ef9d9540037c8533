// The layout rectangle: an origin (`left`, `top`) and an extent (`right` is the
// width, `bottom` the height), all i32 in the source. Rust's `&mut self`
// methods on this Copy value become functions returning the updated rectangle.

module Geometry {

  import opened Wrappers

  datatype Rect = Rect(left: int, top: int, right: int, bottom: int)

  /** `Rect::default()`. */
  const Zero := Rect(0, 0, 0, 0)

  /** A Win32 `RECT`: four edge coordinates. */
  datatype Win32Rect = Win32Rect(left: int, top: int, right: int, bottom: int)

  /** Rust's `/` on integers: the quotient is truncated toward zero. */
  function TruncDiv(a: int, b: int): (q: int)
    requires b != 0
    ensures a >= 0 && b > 0 ==> q == a / b
    ensures (a >= 0) == (b > 0) || a == 0 ==> q >= 0
    ensures (a >= 0) != (b > 0) ==> q <= 0
  {
    var n := (if a < 0 then -a else a) / (if b < 0 then -b else b);
    if (a < 0) == (b < 0) then n else -n
  }

  /** Division undoes multiplication by a positive divisor. */
  lemma MulDivCancel(a: nat, b: int)
    requires b > 0
    ensures (a * b) / b == a
  {
    var q, r := (a * b) / b, (a * b) % b;
    assert (a - q) * b == r;
    if a - q >= 1 {
      assert false;
    } else if a - q <= -1 {
      assert false;
    }
  }

  /** An exact quotient is unaffected by truncation. */
  lemma TruncDivExact(x: int, d: int)
    requires d != 0
    ensures TruncDiv(x * d, d) == x
  {
    var ax: nat := if x < 0 then -x else x;
    var ad := if d < 0 then -d else d;
    AbsProduct(x, d);
    MulDivCancel(ax, ad);
  }

  /** The magnitude of a product is the product of the magnitudes. */
  lemma AbsProduct(x: int, d: int)
    ensures (if x * d < 0 then -(x * d) else x * d) == (if x < 0 then -x else x) * (if d < 0 then -d else d)
  {
    if x < 0 && d < 0 { assert x * d == (-x) * (-d); }
    else if x < 0 { assert -(x * d) == (-x) * d; }
    else if d < 0 { assert -(x * d) == x * (-d); }
  }

  /** `is_same_size_as`: moving a rectangle keeps its size, so its far edges move as far as its near ones. */
  predicate IsSameSizeAs(r: Rect, rhs: Rect): (b: bool)
    ensures b ==> (r.left + r.right) - (rhs.left + rhs.right) == r.left - rhs.left
    ensures b ==> (r.top + r.bottom) - (rhs.top + rhs.bottom) == r.top - rhs.top
  {
    r.right == rhs.right && r.bottom == rhs.bottom
  }

  /** `has_same_position_as`; with the same size as well, the rectangles are equal. */
  predicate HasSamePositionAs(r: Rect, rhs: Rect): (b: bool)
    ensures b && IsSameSizeAs(r, rhs) <==> r == rhs
  {
    r.left == rhs.left && r.top == rhs.top
  }

  /** `add_padding`: shrink on every side by the padding, if there is one. */
  function AddPadding(r: Rect, padding: Option<int>): (p: Rect)
    ensures padding.None? ==> p == r
    ensures padding.Some? ==> p.left + p.right == r.left + r.right - padding.value
    ensures padding.Some? ==> p.top + p.bottom == r.top + r.bottom - padding.value
  {
    match padding
    case None => r
    case Some(n) => Rect(r.left + n, r.top + n, r.right - n * 2, r.bottom - n * 2)
  }

  /** `add_margin`: grow on every side by the margin. */
  function AddMargin(r: Rect, margin: int): (m: Rect)
    ensures m.left + m.right == r.left + r.right + margin
    ensures m.top + m.bottom == r.top + r.bottom + margin
  {
    Rect(r.left - margin, r.top - margin, r.right + margin * 2, r.bottom + margin * 2)
  }

  /** `left_padding`: move the left edge right, keeping the width. */
  function LeftPadding(r: Rect, padding: int): (p: Rect)
    ensures p.left == r.left + padding && p.(left := r.left) == r
  {
    r.(left := r.left + padding)
  }

  /** `right_padding`: narrow the rectangle, keeping the origin. */
  function RightPadding(r: Rect, padding: int): (p: Rect)
    ensures p.right == r.right - padding && p.(right := r.right) == r
  {
    r.(right := r.right - padding)
  }

  /** `contains_point`: closed on all four edges. */
  predicate ContainsPoint(r: Rect, x: int, y: int)
  {
    r.left <= x <= r.left + r.right && r.top <= y <= r.top + r.bottom
  }

  /** `scale`: every field multiplied by `rect_dpi / system_dpi`, truncating. */
  function Scale(r: Rect, systemDpi: int, rectDpi: int): (s: Rect)
    requires systemDpi != 0
    ensures rectDpi == 0 ==> s == Zero
  {
    Rect(TruncDiv(r.left * rectDpi, systemDpi), TruncDiv(r.top * rectDpi, systemDpi),
         TruncDiv(r.right * rectDpi, systemDpi), TruncDiv(r.bottom * rectDpi, systemDpi))
  }

  /** `From<RECT> for Rect`: edges to origin and extent. */
  function FromWin32(w: Win32Rect): (r: Rect)
    ensures r.left + r.right == w.right && r.top + r.bottom == w.bottom
  {
    Rect(w.left, w.top, w.right - w.left, w.bottom - w.top)
  }

  /** `Rect::rect`: origin and extent to edges. */
  function ToWin32(r: Rect): (w: Win32Rect)
    ensures w.right - w.left == r.right && w.bottom - w.top == r.bottom
  {
    Win32Rect(r.left, r.top, r.left + r.right, r.top + r.bottom)
  }

  /** A margin undoes the padding of the same amount, and the reverse. */
  lemma PaddingMarginInverse(r: Rect, n: int)
    ensures AddMargin(AddPadding(r, Some(n)), n) == r
    ensures AddPadding(AddMargin(r, n), Some(n)) == r
  {
  }

  /** A non-negative padding keeps every point of the padded rectangle inside the original. */
  lemma PaddingShrinks(r: Rect, n: int, x: int, y: int)
    requires n >= 0
    requires ContainsPoint(AddPadding(r, Some(n)), x, y)
    ensures ContainsPoint(r, x, y)
  {
  }

  /** Padding keeps the centre: both opposite edges move by the same amount. */
  lemma PaddingKeepsCentre(r: Rect, n: int)
    ensures var p := AddPadding(r, Some(n));
      2 * p.left + p.right == 2 * r.left + r.right && 2 * p.top + p.bottom == 2 * r.top + r.bottom
  {
  }

  /** Scaling at the rectangle's own DPI changes nothing. */
  lemma ScaleSameDpi(r: Rect, dpi: int)
    requires dpi != 0
    ensures Scale(r, dpi, dpi) == r
  {
    TruncDivExact(r.left, dpi);
    TruncDivExact(r.top, dpi);
    TruncDivExact(r.right, dpi);
    TruncDivExact(r.bottom, dpi);
  }

  /** A Win32 conversion round trip is the identity in both directions. */
  lemma Win32RoundTrip(r: Rect, w: Win32Rect)
    ensures FromWin32(ToWin32(r)) == r
    ensures ToWin32(FromWin32(w)) == w
  {
  }

  /** The corners of a rectangle with a non-negative extent are inside it. */
  lemma CornersContained(r: Rect)
    requires r.right >= 0 && r.bottom >= 0
    ensures ContainsPoint(r, r.left, r.top)
    ensures ContainsPoint(r, r.left + r.right, r.top + r.bottom)
  {
  }
}
