// A user-defined layout: a list of columns, each holding one container, a
// fixed number of containers, or (the last one) all the rest. Containers are
// numbered column by column, so a container index maps to the column holding
// it through running sums of the column capacities.

module CustomLayouts {

  import opened Wrappers
  import opened Geometry

  datatype ColumnSplit = Horizontal | Vertical

  datatype ColumnSplitWithCapacity = HorizontalWith(capacity: nat) | VerticalWith(capacity: nat)

  /** A column; the width percentage of a primary column is an `f32`, kept as a real. */
  datatype Column =
    | Primary(width: Option<real>)
    | Secondary(split: Option<ColumnSplitWithCapacity>)
    | Tertiary(rest: ColumnSplit)

  predicate IsVerticalSplit(c: Column)
  {
    c == Tertiary(Vertical) || (c.Secondary? && c.split.Some? && c.split.value.VerticalWith?)
  }

  // ------------------------------------------------------------- validity

  function Primaries(l: seq<Column>): nat
  {
    if |l| == 0 then 0 else (if l[0].Primary? then 1 else 0) + Primaries(l[1..])
  }

  function Tertiaries(l: seq<Column>): nat
  {
    if |l| == 0 then 0 else (if l[0].Tertiary? then 1 else 0) + Tertiaries(l[1..])
  }

  /**
   * `is_valid`: at least one column, no vertical split, the last column is
   * the tertiary one, and exactly one primary and one tertiary column.
   */
  predicate IsValid(l: seq<Column>)
  {
    |l| > 0
    && (forall i :: 0 <= i < |l| ==> !IsVerticalSplit(l[i]))
    && l[|l| - 1].Tertiary?
    && Primaries(l) == 1 && Tertiaries(l) == 1
  }

  /**
   * The shape of a valid layout, stated without counting: one primary column
   * somewhere before the last, horizontal secondaries everywhere else, and a
   * horizontal tertiary column at the end.
   */
  predicate Shaped(l: seq<Column>, p: nat)
  {
    |l| > 0 && p < |l| - 1 && l[p].Primary?
    && l[|l| - 1] == Tertiary(Horizontal)
    && (forall i :: 0 <= i < |l| - 1 && i != p ==> l[i].Secondary? && !IsVerticalSplit(l[i]))
  }

  lemma {:induction false} NoPrimaries(l: seq<Column>)
    ensures Primaries(l) == 0 <==> forall i :: 0 <= i < |l| ==> !l[i].Primary?
  {
    if |l| > 0 {
      NoPrimaries(l[1..]);
      if Primaries(l) == 0 {
        forall i | 0 <= i < |l|
          ensures !l[i].Primary?
        {
          if i > 0 { assert l[i] == l[1..][i - 1]; }
        }
      }
      if forall i :: 0 <= i < |l| ==> !l[i].Primary? {
        assert forall i :: 0 <= i < |l| - 1 ==> !l[1..][i].Primary? by {
          forall i | 0 <= i < |l| - 1 ensures !l[1..][i].Primary? { assert l[1..][i] == l[i + 1]; }
        }
      }
    }
  }

  lemma {:induction false} OnePrimary(l: seq<Column>, p: nat)
    requires p < |l| && l[p].Primary?
    ensures Primaries(l) == 1 <==> forall i :: 0 <= i < |l| && i != p ==> !l[i].Primary?
  {
    if p == 0 {
      NoPrimaries(l[1..]);
      assert forall i :: 0 < i < |l| ==> l[i] == l[1..][i - 1];
    } else {
      OnePrimary(l[1..], p - 1);
      NoPrimaries(l[1..]);
      assert forall i :: 0 < i < |l| ==> l[i] == l[1..][i - 1];
    }
  }

  lemma {:induction false} NoTertiaries(l: seq<Column>)
    ensures Tertiaries(l) == 0 <==> forall i :: 0 <= i < |l| ==> !l[i].Tertiary?
  {
    if |l| > 0 {
      NoTertiaries(l[1..]);
      assert forall i :: 0 < i < |l| ==> l[i] == l[1..][i - 1];
    }
  }

  lemma {:induction false} LastTertiary(l: seq<Column>)
    requires |l| > 0 && l[|l| - 1].Tertiary?
    ensures Tertiaries(l) == 1 <==> forall i :: 0 <= i < |l| - 1 ==> !l[i].Tertiary?
  {
    if |l| == 1 {
    } else {
      LastTertiary(l[1..]);
      NoTertiaries(l[1..]);
      assert forall i :: 0 < i < |l| ==> l[i] == l[1..][i - 1];
    }
  }

  /** A layout is valid exactly when it has the shape of `Shaped`, its primary column at `PrimaryIdx`. */
  lemma ValidIffShaped(l: seq<Column>)
    ensures IsValid(l) ==> PrimaryIdx(l).Some? && Shaped(l, PrimaryIdx(l).value)
    ensures forall p :: Shaped(l, p) ==> IsValid(l)
  {
    if IsValid(l) {
      NoPrimaries(l);
      var p := PrimaryIdx(l).value;
      OnePrimary(l, p);
      LastTertiary(l);
      assert !IsVerticalSplit(l[|l| - 1]);
      assert l[|l| - 1].rest == Horizontal;
      if p == |l| - 1 {
        assert false;
      }
    }
    forall p | Shaped(l, p)
      ensures IsValid(l)
    {
      OnePrimary(l, p);
      LastTertiary(l);
    }
  }

  /** `primary_idx`: the first primary column, if any. */
  function PrimaryIdx(l: seq<Column>): (r: Option<nat>)
    ensures r.Some? ==> r.value < |l| && l[r.value].Primary? && forall j :: 0 <= j < r.value ==> !l[j].Primary?
    ensures r.None? ==> forall j :: 0 <= j < |l| ==> !l[j].Primary?
  {
    PrimaryFrom(l, 0)
  }

  function PrimaryFrom(l: seq<Column>, i: nat): (r: Option<nat>)
    requires forall j :: 0 <= j < i && j < |l| ==> !l[j].Primary?
    ensures r.Some? ==> i <= r.value < |l| && l[r.value].Primary? && forall j :: 0 <= j < r.value ==> !l[j].Primary?
    ensures r.None? ==> forall j :: 0 <= j < |l| ==> !l[j].Primary?
    decreases |l| - i
  {
    if i >= |l| then None
    else if l[i].Primary? then Some(i)
    else PrimaryFrom(l, i + 1)
  }

  // -------------------------------------------------------- container counts

  /** How many containers a column holds; the tertiary column takes whatever is left and has no entry. */
  function Capacity(c: Column): Option<nat>
  {
    match c
    case Primary(_) => Some(1)
    case Secondary(None) => Some(1)
    case Secondary(Some(split)) => Some(split.capacity)
    case Tertiary(_) => None
  }

  /** `column_container_counts`: the capacity of every column but the tertiary ones, by column index. */
  method ColumnContainerCounts(l: seq<Column>) returns (counts: map<nat, nat>)
    ensures forall i: nat :: i in counts <==> i < |l| && !l[i].Tertiary?
    ensures forall i :: i in counts ==> Capacity(l[i]) == Some(counts[i])
  {
    counts := map[];
    var idx := 0;
    while idx < |l|
      invariant idx <= |l|
      invariant forall i: nat :: i in counts <==> i < idx && !l[i].Tertiary?
      invariant forall i :: i in counts ==> i < |l| && Capacity(l[i]) == Some(counts[i])
    {
      match l[idx] {
        case Primary(_) =>
          counts := counts[idx := 1];
        case Secondary(None) =>
          counts := counts[idx := 1];
        case Secondary(Some(split)) =>
          counts := counts[idx := split.capacity];
        case Tertiary(_) =>
      }
      idx := idx + 1;
    }
  }

  /** The containers held by the columns before `c` (columns past the end hold none). */
  function Before(l: seq<Column>, c: nat): nat
  {
    if c == 0 then 0
    else Before(l, c - 1) + (if c - 1 < |l| then Capacity(l[c - 1]).UnwrapOr(0) else 0)
  }

  /** `first_container_idx`: the index of the first container of column `c`. */
  method FirstContainerIdx(l: seq<Column>, c: nat) returns (acc: nat)
    ensures acc == Before(l, c)
  {
    var counts := ColumnContainerCounts(l);
    acc := 0;
    var i := 0;
    while i < c
      invariant i <= c && acc == Before(l, i)
    {
      if i in counts {
        acc := acc + counts[i];
      }
      i := i + 1;
    }
  }

  lemma {:induction false} BeforeMonotone(l: seq<Column>, a: nat, b: nat)
    requires a <= b
    ensures Before(l, a) <= Before(l, b)
    decreases b
  {
    if a < b {
      BeforeMonotone(l, a, b - 1);
    }
  }

  /**
   * The column that the scan of `column_for_container_idx` settles on, having
   * passed columns `0..i` without the running count exceeding `idx`: the
   * first column (short of the last) that has a count and brings the running
   * count past `idx`, or else the last column.
   */
  function ColumnFrom(l: seq<Column>, idx: nat, i: nat): (c: nat)
    requires |l| > 0
    ensures c < |l|
    decreases |l| - i
  {
    if i >= |l| - 1 then |l| - 1
    else if Capacity(l[i]).Some? && Before(l, i + 1) > idx then i
    else ColumnFrom(l, idx, i + 1)
  }

  function ColumnOf(l: seq<Column>, idx: nat): (c: nat)
    requires |l| > 0
    ensures c < |l|
  {
    ColumnFrom(l, idx, 0)
  }

  /** `column_for_container_idx`; the source's `len() - 1` underflows on an empty layout. */
  method ColumnForContainerIdx(l: seq<Column>, idx: nat) returns (column: nat)
    requires |l| > 0
    ensures column == ColumnOf(l, idx)
  {
    var counts := ColumnContainerCounts(l);
    var acc := 0;
    var i := 0;
    while i < |l| - 1
      invariant i <= |l| - 1 && acc == Before(l, i)
      invariant ColumnOf(l, idx) == ColumnFrom(l, idx, i)
    {
      if i in counts {
        acc := acc + counts[i];
        if acc > idx {
          return i;
        }
      }
      i := i + 1;
    }
    column := |l| - 1;
  }

  lemma {:induction false} ColumnFromBounds(l: seq<Column>, idx: nat, i: nat)
    requires |l| > 0 && i <= |l| - 1 && Before(l, i) <= idx
    ensures var c := ColumnFrom(l, idx, i);
      i <= c < |l| && Before(l, c) <= idx && (c < |l| - 1 ==> idx < Before(l, c + 1))
    decreases |l| - i
  {
    if i < |l| - 1 && !(Capacity(l[i]).Some? && Before(l, i + 1) > idx) {
      ColumnFromBounds(l, idx, i + 1);
    }
  }

  /**
   * The column found for container `idx` is the one whose containers span
   * `idx`: the containers before it number at most `idx`, and (unless it is
   * the last column, which takes the rest) the containers up to its end
   * number more than `idx`.
   */
  lemma ColumnOfSpans(l: seq<Column>, idx: nat)
    requires |l| > 0
    ensures ColumnOf(l, idx) < |l|
    ensures Before(l, ColumnOf(l, idx)) <= idx
    ensures ColumnOf(l, idx) < |l| - 1 ==> idx < Before(l, ColumnOf(l, idx) + 1)
  {
    ColumnFromBounds(l, idx, 0);
  }

  lemma {:induction false} ColumnFromFirst(l: seq<Column>, c: nat, i: nat)
    requires |l| > 0 && i <= c < |l|
    requires c < |l| - 1 ==> Capacity(l[c]).UnwrapOr(0) > 0
    ensures ColumnFrom(l, Before(l, c), i) == c
    decreases |l| - i
  {
    if i < c {
      BeforeMonotone(l, i + 1, c);
      ColumnFromFirst(l, c, i + 1);
    }
  }

  /**
   * The first container of a column maps back to that column, provided the
   * column holds a container (the last column always qualifies).
   */
  lemma FirstContainerRoundTrip(l: seq<Column>, c: nat)
    requires c < |l|
    requires c < |l| - 1 ==> Capacity(l[c]).UnwrapOr(0) > 0
    ensures ColumnOf(l, Before(l, c)) == c
  {
    ColumnFromFirst(l, c, 0);
  }

  // ------------------------------------------------------------- column area

  /** The strip for column `idx` of `len - offset` equal columns (`right` truncated as Rust's `/` does). */
  function ColumnAreaOf(workArea: Rect, idx: nat, divisor: nat): (r: Rect)
    requires divisor != 0
  {
    var w := TruncDiv(workArea.right, divisor);
    Rect(workArea.left + idx * w, workArea.top, w, workArea.bottom)
  }

  /**
   * `column_area`: `left` advances by the equal width once per preceding
   * column. The divisor is the number of columns less the offset; the source
   * underflows when the offset exceeds it and divides by zero when they are equal.
   */
  method ColumnArea(l: seq<Column>, workArea: Rect, idx: nat, offset: Option<nat>) returns (r: Rect)
    requires offset.Some? ==> offset.value < |l|
    requires offset.None? ==> |l| > 0
    ensures r == ColumnAreaOf(workArea, idx, if offset.Some? then |l| - offset.value else |l|)
  {
    var divisor := if offset.Some? then |l| - offset.value else |l|;
    var equalWidth := TruncDiv(workArea.right, divisor);
    var left := workArea.left;
    var right := equalWidth;
    var k := 0;
    while k < idx
      invariant k <= idx && left == workArea.left + k * equalWidth
    {
      assert (k + 1) * equalWidth == k * equalWidth + equalWidth;
      left := left + right;
      k := k + 1;
    }
    r := Rect(left, workArea.top, right, workArea.bottom);
  }

  /** Consecutive column areas are adjacent and equally wide, with the work area's top and height. */
  lemma ColumnAreasAdjacent(workArea: Rect, idx: nat, divisor: nat)
    requires divisor != 0
    ensures var a, b := ColumnAreaOf(workArea, idx, divisor), ColumnAreaOf(workArea, idx + 1, divisor);
      a.left + a.right == b.left && a.right == b.right
      && a.top == workArea.top && a.bottom == workArea.bottom
    ensures ColumnAreaOf(workArea, 0, divisor).left == workArea.left
  {
    var w := TruncDiv(workArea.right, divisor);
    assert idx * w + w == (idx + 1) * w;
  }
}
