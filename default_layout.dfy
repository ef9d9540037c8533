// The predefined layouts: their cycling order, their outermost container
// indices, the per-container resize adjustment, and the ratio arrays of the
// layout options (validated on load, written back without trailing gaps).

module DefaultLayouts {

  import opened Wrappers
  import opened Geometry
  import opened CoreRules
  import opened OperationDirections

  datatype DefaultLayout =
    | BSP
    | Columns
    | Rows
    | VerticalStack
    | HorizontalStack
    | UltrawideVerticalStack
    | Grid
    | RightMainVerticalStack
    | Scrolling

  // ---------------------------------------------------------------- ratios

  const MaxRatios: nat := 5
  const MinRatio: real := 0.1
  const MaxRatio: real := 0.9

  /** `f32::clamp` to the allowed ratio range. */
  function Clamp(v: real): (c: real)
    ensures MinRatio <= c <= MaxRatio
    ensures MinRatio <= v <= MaxRatio ==> c == v
  {
    if v < MinRatio then MinRatio else if v > MaxRatio then MaxRatio else v
  }

  function Sum(k: seq<real>): real
  {
    if k == [] then 0.0 else k[0] + Sum(k[1..])
  }

  predicate InRange(k: seq<real>)
  {
    forall j :: 0 <= j < |k| ==> MinRatio <= k[j] <= MaxRatio
  }

  /**
   * The ratios kept from index `i` on, when `sum` has been accepted before
   * them: each clamped value is kept while the running sum stays below 1.0,
   * and at most `MaxRatios` values are considered.
   */
  function KeptFrom(ratios: seq<real>, i: nat, sum: real): (k: seq<real>)
    decreases |ratios| - i
    ensures |k| <= (if i >= MaxRatios then 0 else MaxRatios - i)
  {
    if i >= |ratios| || i >= MaxRatios then []
    else
      var c := Clamp(ratios[i]);
      if sum + c < 1.0 then [c] + KeptFrom(ratios, i + 1, sum + c) else []
  }

  /** The fixed array of `MaxRatios` slots holding `k` first and `None` after. */
  function Pad(k: seq<real>): (arr: seq<Option<real>>)
    requires |k| <= MaxRatios
    ensures |arr| == MaxRatios
    ensures forall j :: 0 <= j < MaxRatios ==> (arr[j].Some? <==> j < |k|)
    ensures forall j :: 0 <= j < |k| ==> arr[j] == Some(k[j])
  {
    seq(MaxRatios, j requires 0 <= j < MaxRatios => if j < |k| then Some(k[j]) else None)
  }

  /** What `validate_ratios` returns for `ratios`. */
  function Validated(ratios: seq<real>): seq<Option<real>>
  {
    Pad(KeptFrom(ratios, 0, 0.0))
  }

  /** `validate_ratios`: clamp, keep while the sum stays below 1.0, stop at the first refusal. */
  method ValidateRatios(ratios: seq<real>) returns (arr: seq<Option<real>>)
    ensures arr == Validated(ratios)
  {
    arr := [None, None, None, None, None];
    var sum := 0.0;
    ghost var kept: seq<real> := [];
    var i := 0;
    while i < |ratios| && i < MaxRatios
      invariant i <= MaxRatios && |kept| == i
      invariant KeptFrom(ratios, 0, 0.0) == kept + KeptFrom(ratios, i, sum)
      invariant |arr| == MaxRatios
      invariant forall j :: 0 <= j < MaxRatios ==> arr[j] == (if j < i then Some(kept[j]) else None)
      invariant sum == Sum(kept)
    {
      var c := Clamp(ratios[i]);
      if sum + c < 1.0 {
        var rest := KeptFrom(ratios, i + 1, sum + c);
        assert KeptFrom(ratios, i, sum) == [c] + rest;
        assert kept + ([c] + rest) == (kept + [c]) + rest;
        arr := arr[i := Some(c)];
        SumAppend(kept, c);
        kept := kept + [c];
        sum := sum + c;
      } else {
        assert KeptFrom(ratios, i, sum) == [];
        assert arr == Pad(kept);
        return;
      }
      i := i + 1;
    }
    assert arr == Pad(kept);
  }

  lemma {:induction false} SumAppend(k: seq<real>, c: real)
    ensures Sum(k + [c]) == Sum(k) + c
  {
    if k != [] {
      assert (k + [c])[1..] == k[1..] + [c];
      SumAppend(k[1..], c);
    }
  }

  lemma {:induction false} SumNonNegative(k: seq<real>)
    requires InRange(k)
    ensures Sum(k) >= 0.0
  {
    if k != [] {
      SumNonNegative(k[1..]);
    }
  }

  /** The values `serialize_ratios` writes: the present slots, in order. */
  function Present(arr: seq<Option<real>>): (v: seq<real>)
    ensures |v| <= |arr|
  {
    if arr == [] then []
    else (if arr[0].Some? then [arr[0].value] else []) + Present(arr[1..])
  }

  /** One past the last present slot, 0 when none is present (`rposition` + 1). */
  function LastPresentEnd(arr: seq<Option<real>>): (n: nat)
    ensures n <= |arr|
    ensures n > 0 ==> arr[n - 1].Some?
    ensures forall j :: n <= j < |arr| ==> arr[j].None?
  {
    if arr == [] then 0
    else if arr[|arr| - 1].Some? then |arr|
    else LastPresentEnd(arr[..|arr| - 1])
  }

  /** `serialize_ratios`: nothing for no array, otherwise the present values up to the last one. */
  function SerializeRatios(value: Option<seq<Option<real>>>): (r: Option<seq<real>>)
    ensures r.Some? <==> value.Some?
    ensures value.Some? ==> |r.value| <= |value.value|
  {
    match value
    case None => None
    case Some(arr) => Some(Present(arr[..LastPresentEnd(arr)]))
  }

  /** `deserialize_ratios`: a list of numbers is validated into the fixed array. */
  function DeserializeRatios(value: Option<seq<real>>): (r: Option<seq<Option<real>>>)
    ensures r.Some? <==> value.Some?
    ensures value.Some? ==> |r.value| == MaxRatios
  {
    match value
    case None => None
    case Some(v) => Some(Validated(v))
  }

  /**
   * What validation promises: a prefix of the slots is filled, each filled
   * value is its input clamped to [0.1, 0.9], their sum is below 1.0, and
   * filling stops only at the end of the input, at `MaxRatios` values, or at
   * a value that would take the sum to 1.0 or more.
   */
  lemma {:induction false} ValidatedShape(ratios: seq<real>)
    ensures var arr := Validated(ratios);
      var n := |KeptFrom(ratios, 0, 0.0)|;
      |arr| == MaxRatios && n <= |ratios|
      && (forall j :: 0 <= j < MaxRatios ==> (arr[j].Some? <==> j < n))
      && (forall j :: 0 <= j < n ==> arr[j] == Some(Clamp(ratios[j])))
      && Sum(KeptFrom(ratios, 0, 0.0)) < 1.0
      && (n < |ratios| && n < MaxRatios ==> Sum(KeptFrom(ratios, 0, 0.0)) + Clamp(ratios[n]) >= 1.0)
  {
    KeptFromShape(ratios, 0, 0.0);
    var k := KeptFrom(ratios, 0, 0.0);
    if k == [] {
      assert Sum(k) == 0.0;
    }
  }

  lemma {:induction false} KeptFromShape(ratios: seq<real>, i: nat, sum: real)
    decreases |ratios| - i
    ensures var k := KeptFrom(ratios, i, sum);
      (k != [] ==> i + |k| <= |ratios|)
      && (forall j :: 0 <= j < |k| ==> i + j < |ratios| && k[j] == Clamp(ratios[i + j]))
      && InRange(k)
      && (k != [] ==> sum + Sum(k) < 1.0)
      && (i + |k| < |ratios| && i + |k| < MaxRatios ==> sum + Sum(k) + Clamp(ratios[i + |k|]) >= 1.0)
  {
    if i >= |ratios| || i >= MaxRatios {
    } else {
      var c := Clamp(ratios[i]);
      if sum + c < 1.0 {
        KeptFromShape(ratios, i + 1, sum + c);
        var rest := KeptFrom(ratios, i + 1, sum + c);
        assert KeptFrom(ratios, i, sum) == [c] + rest;
        assert ([c] + rest)[1..] == rest;
      }
    }
  }

  /** Validation leaves an already valid list unchanged (re-clamping and re-summing keep it). */
  lemma {:induction false} KeptFromValid(k: seq<real>, i: nat, sum: real)
    requires i <= |k| <= MaxRatios
    requires InRange(k)
    requires sum + Sum(k[i..]) < 1.0
    decreases |k| - i
    ensures KeptFrom(k, i, sum) == k[i..]
  {
    if i < |k| {
      assert k[i..][1..] == k[i + 1..];
      SumNonNegative(k[i + 1..]);
      KeptFromValid(k, i + 1, sum + k[i]);
    }
  }

  lemma {:induction false} PresentPad(k: seq<real>, m: nat)
    requires m <= |k| <= MaxRatios
    ensures Present(Pad(k)[m..|k|]) == k[m..]
    decreases |k| - m
  {
    if m < |k| {
      assert Pad(k)[m..|k|][1..] == Pad(k)[m + 1..|k|];
      PresentPad(k, m + 1);
      assert k[m..] == [k[m]] + k[m + 1..];
    }
  }

  lemma {:induction false} LastPresentEndPad(k: seq<real>)
    requires |k| <= MaxRatios
    ensures LastPresentEnd(Pad(k)) == |k|
  {
    var arr := Pad(k);
    if |k| > 0 {
      assert arr[|k| - 1].Some?;
    }
  }

  /**
   * Writing validated ratios out and reading them back gives the same array:
   * a deserialised value survives a serialisation round trip.
   */
  lemma RatiosRoundTrip(value: Option<seq<real>>)
    ensures DeserializeRatios(SerializeRatios(DeserializeRatios(value))) == DeserializeRatios(value)
  {
    if value.Some? {
      var k := KeptFrom(value.value, 0, 0.0);
      KeptFromShape(value.value, 0, 0.0);
      LastPresentEndPad(k);
      PresentPad(k, 0);
      assert Pad(k)[..|k|] == Pad(k)[0..|k|];
      KeptFromValid(k, 0, 0.0);
      assert k[0..] == k;
    }
  }

  // ------------------------------------------------------- outermost indices

  /** `leftmost_index`: the container in the leftmost column. */
  function LeftmostIndex(layout: DefaultLayout, len: nat): (i: nat)
    ensures len > 0 ==> i < len
    ensures len <= 1 ==> i == 0
  {
    match layout
    case UltrawideVerticalStack | RightMainVerticalStack => if len > 1 then 1 else 0
    case _ => 0
  }

  /** `rightmost_index`: the container in the rightmost column (`saturating_sub` below zero). */
  function RightmostIndex(layout: DefaultLayout, len: nat): (i: nat)
    ensures len > 0 ==> i < len
    ensures len <= 1 ==> i == 0
  {
    match layout
    case UltrawideVerticalStack => if len == 2 then 0 else if len == 0 then 0 else len - 1
    case RightMainVerticalStack => 0
    case _ => if len == 0 then 0 else len - 1
  }

  /**
   * The stacks place their primary container apart from the left/right edge,
   * and from two containers on the leftmost and rightmost containers differ.
   */
  lemma OutermostIndices(layout: DefaultLayout, len: nat)
    requires len >= 2
    ensures LeftmostIndex(layout, len) != RightmostIndex(layout, len)
    ensures layout.RightMainVerticalStack? ==> LeftmostIndex(layout, len) == 1 && RightmostIndex(layout, len) == 0
    ensures layout.UltrawideVerticalStack? ==>
      LeftmostIndex(layout, len) == 1 && RightmostIndex(layout, len) == (if len == 2 then 0 else len - 1)
    ensures !layout.RightMainVerticalStack? && !layout.UltrawideVerticalStack? ==>
      LeftmostIndex(layout, len) == 0 && RightmostIndex(layout, len) == len - 1
  {
  }

  // ---------------------------------------------------------------- cycling

  /** `cycle_next`. */
  function CycleNext(l: DefaultLayout): (n: DefaultLayout)
    ensures n != l
  {
    match l
    case BSP => Columns
    case Columns => Rows
    case Rows => VerticalStack
    case VerticalStack => HorizontalStack
    case HorizontalStack => UltrawideVerticalStack
    case UltrawideVerticalStack => Grid
    case Grid => RightMainVerticalStack
    case RightMainVerticalStack => Scrolling
    case Scrolling => BSP
  }

  /** `cycle_previous` exactly as written: BSP steps back to RightMainVerticalStack. */
  function CyclePreviousAsWritten(l: DefaultLayout): (p: DefaultLayout)
    ensures p != l
  {
    match l
    case Scrolling => RightMainVerticalStack
    case RightMainVerticalStack => Grid
    case Grid => UltrawideVerticalStack
    case UltrawideVerticalStack => HorizontalStack
    case HorizontalStack => VerticalStack
    case VerticalStack => Rows
    case Rows => Columns
    case Columns => BSP
    case BSP => RightMainVerticalStack
  }

  /** `cycle_previous` with BSP stepping back to Scrolling, the layout before it in the cycle. */
  function CyclePrevious(l: DefaultLayout): (p: DefaultLayout)
    ensures p != l
    ensures l != BSP ==> p == CyclePreviousAsWritten(l)
  {
    if l == BSP then Scrolling else CyclePreviousAsWritten(l)
  }

  /** `n` steps of `cycle_next` from `l`. */
  function Iterate(l: DefaultLayout, n: nat): DefaultLayout
  {
    if n == 0 then l else CycleNext(Iterate(l, n - 1))
  }

  /** The position of a layout in the forward cycle. */
  function Ord(l: DefaultLayout): (o: nat)
    ensures o < 9
  {
    match l
    case BSP => 0
    case Columns => 1
    case Rows => 2
    case VerticalStack => 3
    case HorizontalStack => 4
    case UltrawideVerticalStack => 5
    case Grid => 6
    case RightMainVerticalStack => 7
    case Scrolling => 8
  }

  lemma OrdNext(l: DefaultLayout)
    ensures Ord(CycleNext(l)) == (Ord(l) + 1) % 9
  {
  }

  lemma OrdInjective(l: DefaultLayout, m: DefaultLayout)
    ensures Ord(l) == Ord(m) ==> l == m
  {
  }

  lemma {:induction false} IterateOrd(l: DefaultLayout, n: nat)
    ensures Ord(Iterate(l, n)) == (Ord(l) + n) % 9
  {
    if n > 0 {
      IterateOrd(l, n - 1);
      OrdNext(Iterate(l, n - 1));
    }
  }

  /** How many forward steps lead from `l` to `m`. */
  function Distance(l: DefaultLayout, m: DefaultLayout): (d: nat)
    ensures d < 9
  {
    if Ord(m) >= Ord(l) then Ord(m) - Ord(l) else Ord(m) + 9 - Ord(l)
  }

  lemma SmallMod(x: nat)
    requires x < 18
    ensures x % 9 == if x < 9 then x else x - 9
  {
  }

  /**
   * Cycling forward from any layout returns to it after exactly nine steps and
   * reaches every layout on the way, each after `Distance` steps.
   */
  lemma CycleNextCoversAll(l: DefaultLayout)
    ensures Iterate(l, 9) == l
    ensures forall n: nat :: 0 < n < 9 ==> Iterate(l, n) != l
    ensures forall m: DefaultLayout :: Iterate(l, Distance(l, m)) == m
  {
    IterateOrd(l, 9);
    SmallMod(Ord(l) + 9);
    OrdInjective(Iterate(l, 9), l);
    forall n: nat | 0 < n < 9 ensures Iterate(l, n) != l {
      IterateOrd(l, n);
      SmallMod(Ord(l) + n);
    }
    forall m: DefaultLayout ensures Iterate(l, Distance(l, m)) == m {
      IterateOrd(l, Distance(l, m));
      SmallMod(Ord(l) + Distance(l, m));
      OrdInjective(Iterate(l, Distance(l, m)), m);
    }
  }

  /** As written, stepping back undoes stepping forward for every layout but Scrolling. */
  lemma CyclePreviousAsWrittenInverse(l: DefaultLayout)
    ensures l != Scrolling ==> CyclePreviousAsWritten(CycleNext(l)) == l
    ensures CyclePreviousAsWritten(CycleNext(Scrolling)) == RightMainVerticalStack
  {
  }

  /** With BSP stepping back to Scrolling, the two cycles are inverse permutations. */
  lemma CyclePreviousInverse(l: DefaultLayout)
    ensures CyclePrevious(CycleNext(l)) == l
    ensures CycleNext(CyclePrevious(l)) == l
  {
  }

  // ---------------------------------------------------------------- resize

  /** The adjustment component an edge changes. */
  function Component(r: Rect, edge: OperationDirection): int
  {
    match edge
    case Left => r.left
    case Up => r.top
    case Right => r.right
    case Down => r.bottom
  }

  /** The unaltered extent an edge's adjustment is bounded by: the width or the height. */
  function Extent(unaltered: Rect, edge: OperationDirection): int
  {
    if IsHorizontal(edge) then unaltered.right else unaltered.bottom
  }

  /** The signed step an edge adjustment takes: growing moves left/top edges outward (negative). */
  function Step(edge: OperationDirection, sizing: Sizing, delta: int): int
  {
    var grow := if edge.Left? || edge.Up? then -delta else delta;
    if sizing.Increase? then grow else -grow
  }

  function SetComponent(r: Rect, edge: OperationDirection, v: int): Rect
  {
    match edge
    case Left => r.(left := v)
    case Up => r.(top := v)
    case Right => r.(right := v)
    case Down => r.(bottom := v)
  }

  function Abs(x: int): nat { if x < 0 then -x else x }

  predicate Resizable(layout: DefaultLayout) { layout != Grid }

  /**
   * `DefaultLayout::resize` as written. Every edge moves by its step only if
   * the moved value stays smaller in magnitude than the extent, except Up,
   * whose test looks at the value moved the other way.
   */
  function ResizeAsWritten(layout: DefaultLayout, unaltered: Rect, resize: Option<Rect>,
                           edge: OperationDirection, sizing: Sizing, delta: int): (res: Option<Rect>)
    ensures !Resizable(layout) ==> res == None
    ensures res.Some? ==> res.value != Zero
  {
    if !Resizable(layout) then None
    else
      var r := resize.UnwrapOr(Zero);
      var c := Component(r, edge);
      var probe := if edge.Up? then c - Step(edge, sizing, delta) else c + Step(edge, sizing, delta);
      var r' := if Abs(probe) < Extent(unaltered, edge) then SetComponent(r, edge, c + Step(edge, sizing, delta)) else r;
      if r' == Zero then None else Some(r')
  }

  /** `DefaultLayout::resize` with the Up test looking at the value it applies, as the other edges do. */
  function Resize(layout: DefaultLayout, unaltered: Rect, resize: Option<Rect>,
                  edge: OperationDirection, sizing: Sizing, delta: int): (res: Option<Rect>)
    ensures !Resizable(layout) ==> res == None
    ensures res.Some? ==> res.value != Zero
    ensures edge != Up ==> res == ResizeAsWritten(layout, unaltered, resize, edge, sizing, delta)
  {
    if !Resizable(layout) then None
    else
      var r := resize.UnwrapOr(Zero);
      var c := Component(r, edge);
      var moved := c + Step(edge, sizing, delta);
      var r' := if Abs(moved) < Extent(unaltered, edge) then SetComponent(r, edge, moved) else r;
      if r' == Zero then None else Some(r')
  }

  /**
   * A resize changes only the component of its edge, by exactly its step, and
   * only to a value smaller in magnitude than the unaltered extent, so
   * repeated resizing cannot push that edge past the container's own size.
   */
  lemma ResizeBounded(layout: DefaultLayout, unaltered: Rect, resize: Option<Rect>,
                      edge: OperationDirection, sizing: Sizing, delta: int)
    requires Resizable(layout)
    ensures var old_ := resize.UnwrapOr(Zero);
      var res := Resize(layout, unaltered, resize, edge, sizing, delta);
      var new_ := res.UnwrapOr(Zero);
      (forall e: OperationDirection :: e != edge ==> Component(new_, e) == Component(old_, e))
      && (Component(new_, edge) == Component(old_, edge)
          || (Component(new_, edge) == Component(old_, edge) + Step(edge, sizing, delta)
              && Abs(Component(new_, edge)) < Extent(unaltered, edge)))
  {
  }

  /**
   * As written, an Up resize can take the top adjustment past the height:
   * with a height of 100 and the top already at -100, growing by 50 moves it to -150.
   */
  lemma ResizeAsWrittenUpUnbounded()
    ensures ResizeAsWritten(Columns, Rect(0, 0, 1000, 100), Some(Rect(0, -100, 0, 0)), Up, Increase, 50)
         == Some(Rect(0, -150, 0, 0))
    ensures Abs(-150) >= Extent(Rect(0, 0, 1000, 100), Up)
    ensures Resize(Columns, Rect(0, 0, 1000, 100), Some(Rect(0, -100, 0, 0)), Up, Increase, 50)
         == Some(Rect(0, -100, 0, 0))
  {
  }
}
