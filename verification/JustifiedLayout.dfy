/** The justified tile layout, in its TypeScript form and in the Rust port, over real arithmetic. */
module JustifiedLayout {

  datatype Item = Item(id: string, ratio: real)

  datatype Options = Options(width: real, target: real, gap: real)

  /** A run of items that makes one row. */
  datatype Part = Part(items: seq<Item>, fill: bool)

  /** A placed tile: numbers in TypeScript, `i64` in Rust. */
  datatype Tile<N> = Tile(id: string, x: N, width: N)

  datatype Row<N> = Row(height: N, tiles: seq<Tile<N>>, isLastRow: bool)

  // Products and quotients by name, so that a proof can treat them as atoms.
  function Times(a: real, b: real): real { a * b }

  function Over(a: real, s: real): real
    requires s > 0.0
  {
    a / s
  }

  function SumRatio(items: seq<Item>): real {
    if items == [] then 0.0 else SumRatio(items[..|items| - 1]) + items[|items| - 1].ratio
  }

  ghost predicate Positive(items: seq<Item>) {
    forall i :: 0 <= i < |items| ==> items[i].ratio > 0.0
  }

  lemma {:induction false} SumPositive(items: seq<Item>)
    requires Positive(items)
    ensures SumRatio(items) >= 0.0 && (items != [] ==> SumRatio(items) > 0.0)
  {
    if items != [] {
      SumPositive(items[..|items| - 1]);
    }
  }

  /** A ratio of zero or less counts as 1. */
  function Cleaned(item: Item): Item {
    if item.ratio > 0.0 then item else item.(ratio := 1.0)
  }

  function CleanedAll(items: seq<Item>): (out: seq<Item>)
    ensures |out| == |items| && forall i :: 0 <= i < |out| ==> out[i] == Cleaned(items[i])
    ensures Positive(out) && forall i :: 0 <= i < |out| ==> out[i].id == items[i].id
    ensures forall i :: 0 <= i < |out| ==> out[i].ratio == items[i].ratio || (items[i].ratio <= 0.0 && out[i].ratio == 1.0)
  {
    seq(|items|, i requires 0 <= i < |items| => Cleaned(items[i]))
  }

  // ----- where rows end -----

  function TotalGap(n: nat, o: Options): real { Times(o.gap, n as real - 1.0) }

  predicate Reaches(items: seq<Item>, o: Options) {
    Times(SumRatio(items), o.target) + TotalGap(|items|, o) >= o.width
  }

  function Concat(parts: seq<Part>): seq<Item> {
    if parts == [] then [] else parts[0].items + Concat(parts[1..])
  }

  /** The first row: it closes at the first item that reaches the width, or holds all items when none does. */
  ghost predicate FirstRow(p: Part, items: seq<Item>, o: Options) {
    && p.items != [] && p.items <= items
    && (forall k :: 0 < k < |p.items| ==> !Reaches(items[..k], o))
    && if p.fill then Reaches(p.items, o) else !Reaches(p.items, o) && p.items == items
  }

  ghost predicate Partition(parts: seq<Part>, items: seq<Item>, o: Options)
    decreases |parts|
  {
    if parts == [] then items == []
    else FirstRow(parts[0], items, o) && Partition(parts[1..], items[|parts[0].items|..], o)
  }

  /** The rows concatenate to the input in order, and only the last can be unfilled. */
  lemma {:induction false} PartitionConcat(parts: seq<Part>, items: seq<Item>, o: Options)
    requires Partition(parts, items, o)
    ensures Concat(parts) == items && forall k :: 0 <= k < |parts| - 1 ==> parts[k].fill
    decreases |parts|
  {
    if parts != [] {
      var p, rest := parts[0], items[|parts[0].items|..];
      PartitionConcat(parts[1..], rest, o);
      assert items == p.items + rest;
      if !p.fill { assert rest == []; }
    }
  }

  /** There is one such partition, so both versions break the rows alike. */
  lemma {:induction false} PartitionUnique(ps: seq<Part>, qs: seq<Part>, items: seq<Item>, o: Options)
    requires Partition(ps, items, o) && Partition(qs, items, o)
    ensures ps == qs
    decreases |ps|
  {
    if ps != [] && qs != [] {
      FirstRowUnique(ps[0], qs[0], items, o);
      PartitionUnique(ps[1..], qs[1..], items[|ps[0].items|..], o);
      assert ps == [ps[0]] + ps[1..] && qs == [qs[0]] + qs[1..];
    }
  }

  lemma FirstRowUnique(p: Part, q: Part, items: seq<Item>, o: Options)
    requires FirstRow(p, items, o) && FirstRow(q, items, o)
    ensures p == q
  {
    assert p.items == items[..|p.items|] && q.items == items[..|q.items|] && items == items[..|items|];
    assert |p.items| == |q.items|;
  }

  ghost predicate AllFilled(parts: seq<Part>) {
    forall k :: 0 <= k < |parts| ==> parts[k].fill
  }

  /** A row that ends the items read so far, after rows that were all filled. */
  lemma {:induction false} PartitionAppend(parts: seq<Part>, items: seq<Item>, p: Part, o: Options)
    requires Partition(parts, items, o) && AllFilled(parts) && FirstRow(p, p.items, o)
    ensures Partition(parts + [p], items + p.items, o)
    decreases |parts|
  {
    hide FirstRow;
    if parts == [] {
      PartitionOne(p, o);
      assert parts + [p] == [p] && items + p.items == p.items;
    } else {
      var q := parts[0];
      FilledRowStays(q, items, p.items, o);
      PartitionAppend(parts[1..], items[|q.items|..], p, o);
      assert (parts + [p])[1..] == parts[1..] + [p];
    }
  }

  lemma PartitionOne(p: Part, o: Options)
    requires FirstRow(p, p.items, o)
    ensures Partition([p], p.items, o)
  {
    assert [p][1..] == [] && p.items[|p.items|..] == [];
  }

  /** Items read later do not change a filled row. */
  lemma FilledRowStays(q: Part, items: seq<Item>, later: seq<Item>, o: Options)
    requires FirstRow(q, items, o) && q.fill
    ensures FirstRow(q, items + later, o) && |q.items| <= |items|
    ensures (items + later)[|q.items|..] == items[|q.items|..] + later
  {
    hide Reaches;
    var more := items + later;
    forall k | 0 < k < |q.items| ensures !Reaches(more[..k], o) { assert more[..k] == items[..k]; }
  }

  // ----- tiles -----

  /** `Math.round`, and `js_round` in Rust: halves go up. */
  function JsRound(v: real): int { (v + 0.5).Floor }

  function Clamp(v: real, low: real, high: real): real {
    var raised := if v > low then v else low;
    if raised < high then raised else high
  }

  function NaturalHeight(items: seq<Item>, o: Options): real
    requires SumRatio(items) > 0.0
  {
    Over(o.width - TotalGap(|items|, o), SumRatio(items))
  }

  function ClampedHeight(items: seq<Item>, o: Options): real
    requires SumRatio(items) > 0.0
  {
    Clamp(NaturalHeight(items, o), o.target * 0.6, o.target * 1.6)
  }

  /** The upper clamp never fires on a filled row: such a row is at most as high as the target. */
  lemma UpperClampNeverFires(items: seq<Item>, o: Options)
    requires SumRatio(items) > 0.0 && o.target > 0.0 && Reaches(items, o)
    ensures NaturalHeight(items, o) <= o.target < o.target * 1.6
    ensures ClampedHeight(items, o) == if NaturalHeight(items, o) > o.target * 0.6 then NaturalHeight(items, o) else o.target * 0.6
  {
    QuotientAtMost(o.width - TotalGap(|items|, o), SumRatio(items), o.target);
  }

  lemma QuotientAtMost(a: real, s: real, t: real)
    requires s > 0.0 && a <= s * t
    ensures a / s <= t
  {
    assert a == a / s * s;
    if a / s > t { ScaledMore(a / s, t, s); }
  }

  lemma ScaledMore(x: real, y: real, s: real)
    requires s > 0.0 && x > y
    ensures x * s > y * s
  {
    assert (x - y) * s > 0.0;
  }

  predicate Unclamped(items: seq<Item>, o: Options)
    requires SumRatio(items) > 0.0
  {
    ClampedHeight(items, o) == NaturalHeight(items, o)
  }

  function RowHeight(p: Part, o: Options): int
    requires SumRatio(p.items) > 0.0
  {
    JsRound(if p.fill then ClampedHeight(p.items, o) else o.target)
  }

  /** The width the tiles share, gaps excluded. */
  function InnerWidth(p: Part, o: Options): real
    requires SumRatio(p.items) > 0.0
  {
    if !p.fill then JsRound(Times(o.target, SumRatio(p.items))) as real
    else if Unclamped(p.items, o) then o.width - TotalGap(|p.items|, o)
    else JsRound(Times(ClampedHeight(p.items, o), SumRatio(p.items))) as real
  }

  /** A tile's ideal width. */
  function Ideal(p: Part, o: Options, i: nat): real
    requires SumRatio(p.items) > 0.0 && i < |p.items|
  {
    Over(Times(InnerWidth(p, o), p.items[i].ratio), SumRatio(p.items))
  }

  /** The rounded widths of the first `k` tiles. */
  function Assigned(p: Part, o: Options, k: nat): int
    requires SumRatio(p.items) > 0.0 && k <= |p.items|
  {
    if k == 0 then 0 else Assigned(p, o, k - 1) + JsRound(Ideal(p, o, k - 1))
  }

  /** A tile's width before negative ones are cut to 0: the last tile absorbs the rounding error. */
  function RawWidth(p: Part, o: Options, i: nat): real
    requires SumRatio(p.items) > 0.0 && i < |p.items|
  {
    if i == |p.items| - 1 then InnerWidth(p, o) - Assigned(p, o, i) as real else JsRound(Ideal(p, o, i)) as real
  }

  function Width(p: Part, o: Options, i: nat): real
    requires SumRatio(p.items) > 0.0 && i < |p.items|
  {
    if RawWidth(p, o, i) < 0.0 then 0.0 else RawWidth(p, o, i)
  }

  function X(p: Part, o: Options, i: nat): real
    requires SumRatio(p.items) > 0.0 && i <= |p.items|
  {
    if i == 0 then 0.0 else X(p, o, i - 1) + (Width(p, o, i - 1) + o.gap)
  }

  // ----- how high a row is, and how much its tiles share -----

  /** `h` is `v` to the nearest whole number, halves up. */
  predicate RoundedTo(h: int, v: real) { v - 0.5 < h as real <= v + 0.5 }

  lemma JsRoundIs(v: real, h: int)
    ensures RoundedTo(h, v) <==> h == JsRound(v)
  {
  }

  /** A row is scaled to fill the width, but to no less than six tenths of the target; an unfilled one has the target height. */
  lemma RowHeights(p: Part, o: Options)
    requires SumRatio(p.items) > 0.0 && o.target > 0.0 && (p.fill ==> Reaches(p.items, o))
    ensures !p.fill ==> RoundedTo(RowHeight(p, o), o.target)
    ensures p.fill && NaturalHeight(p.items, o) >= o.target * 0.6 ==> RoundedTo(RowHeight(p, o), NaturalHeight(p.items, o))
    ensures p.fill && NaturalHeight(p.items, o) < o.target * 0.6 ==> RoundedTo(RowHeight(p, o), o.target * 0.6)
  {
    if p.fill { UpperClampNeverFires(p.items, o); }
    hide SumRatio, TotalGap, NaturalHeight, ClampedHeight;
  }

  /** The tiles share what the gaps leave of the width; in a row that is not scaled that far they keep their proportions. */
  lemma InnerWidths(p: Part, o: Options)
    requires SumRatio(p.items) > 0.0 && o.target > 0.0 && (p.fill ==> Reaches(p.items, o))
    ensures p.fill && NaturalHeight(p.items, o) >= o.target * 0.6 ==> InnerWidth(p, o) == o.width - TotalGap(|p.items|, o)
    ensures !p.fill ==> InnerWidth(p, o) - 0.5 <= o.target * SumRatio(p.items) <= InnerWidth(p, o) + 0.5
    ensures p.fill && NaturalHeight(p.items, o) < o.target * 0.6 ==>
      InnerWidth(p, o) - 0.5 <= o.target * 0.6 * SumRatio(p.items) <= InnerWidth(p, o) + 0.5
  {
    if p.fill { UpperClampNeverFires(p.items, o); }
    hide SumRatio, TotalGap, NaturalHeight, ClampedHeight;
    assert Times(ClampedHeight(p.items, o), SumRatio(p.items)) == ClampedHeight(p.items, o) * SumRatio(p.items);
    assert Times(o.target, SumRatio(p.items)) == o.target * SumRatio(p.items);
  }

  // ----- what the widths add up to -----

  ghost predicate Filled(p: Part, o: Options) {
    p.fill && p.items != [] && Positive(p.items) && o.target > 0.0 && Reaches(p.items, o) && SumRatio(p.items) > 0.0
  }

  lemma InnerNonNegative(p: Part, o: Options)
    requires p.items != [] && Positive(p.items) && SumRatio(p.items) > 0.0 && o.target > 0.0
    ensures InnerWidth(p, o) >= 0.0
  {
    ProductPositive(o.target, SumRatio(p.items));
    ProductPositive(ClampedHeight(p.items, o), SumRatio(p.items));
    if p.fill && Unclamped(p.items, o) {
      assert NaturalHeight(p.items, o) * SumRatio(p.items) == o.width - TotalGap(|p.items|, o);
      ProductPositive(NaturalHeight(p.items, o), SumRatio(p.items));
    }
  }

  lemma ProductPositive(x: real, y: real)
    ensures x > 0.0 && y > 0.0 ==> x * y > 0.0
  {
  }

  lemma IdealNonNegative(p: Part, o: Options, i: nat)
    requires p.items != [] && Positive(p.items) && SumRatio(p.items) > 0.0 && o.target > 0.0 && i < |p.items|
    ensures Ideal(p, o, i) >= 0.0 && JsRound(Ideal(p, o, i)) >= 0
  {
    InnerNonNegative(p, o);
    QuotientNonNegative(InnerWidth(p, o), p.items[i].ratio, SumRatio(p.items));
  }

  lemma QuotientNonNegative(a: real, b: real, s: real)
    requires a >= 0.0 && b >= 0.0 && s > 0.0
    ensures a * b / s >= 0.0
  {
    assert a * b >= 0.0;
  }

  lemma RoundedWidth(p: Part, o: Options, i: nat)
    requires SumRatio(p.items) > 0.0 && i < |p.items| - 1 && JsRound(Ideal(p, o, i)) >= 0
    ensures Width(p, o, i) == JsRound(Ideal(p, o, i)) as real
  {
    hide Ideal;
  }

  lemma GapStep(gap: real, k: nat)
    ensures Times(gap, (k + 1) as real) == Times(gap, k as real) + gap
  {
  }

  /** Positions add up the rounded widths and the gaps before them. */
  lemma {:induction false} Positions(p: Part, o: Options, k: nat)
    requires p.items != [] && Positive(p.items) && SumRatio(p.items) > 0.0 && o.target > 0.0 && k < |p.items|
    ensures X(p, o, k) == Assigned(p, o, k) as real + Times(o.gap, k as real)
  {
    if k > 0 {
      Positions(p, o, k - 1);
      IdealNonNegative(p, o, k - 1);
      RoundedWidth(p, o, k - 1);
      NextX(p, o, k - 1);
      GapStep(o.gap, k - 1);
      hide Ideal, InnerWidth, Width, JsRound, X, Times;
    }
  }

  /** A filled row that is not clamped ends exactly at the container's edge, unless its last tile was cut to 0. */
  lemma FillsExactly(p: Part, o: Options)
    requires Filled(p, o) && Unclamped(p.items, o)
    ensures var n := |p.items| - 1;
      X(p, o, n) + Width(p, o, n) == o.width <==> RawWidth(p, o, n) >= 0.0
  {
    Positions(p, o, |p.items| - 1);
  }

  function IdealSum(p: Part, o: Options, k: nat): real
    requires SumRatio(p.items) > 0.0 && k <= |p.items|
  {
    if k == 0 then 0.0 else IdealSum(p, o, k - 1) + Ideal(p, o, k - 1)
  }

  lemma {:induction false} IdealSums(p: Part, o: Options, k: nat)
    requires SumRatio(p.items) > 0.0 && k <= |p.items|
    ensures Times(IdealSum(p, o, k), SumRatio(p.items)) == Times(InnerWidth(p, o), SumRatio(p.items[..k]))
  {
    if k > 0 {
      IdealSums(p, o, k - 1);
      assert p.items[..k][..k - 1] == p.items[..k - 1];
      assert SumRatio(p.items[..k]) == SumRatio(p.items[..k - 1]) + p.items[k - 1].ratio;
      assert IdealSum(p, o, k) == IdealSum(p, o, k - 1) + Ideal(p, o, k - 1);
      IdealTimes(p, o, k - 1);
      hide InnerWidth, SumRatio, IdealSum, Ideal, Times;
      Distribute(SumRatio(p.items), IdealSum(p, o, k - 1), Ideal(p, o, k - 1));
      Distribute(InnerWidth(p, o), SumRatio(p.items[..k - 1]), p.items[k - 1].ratio);
    }
  }

  lemma IdealTimes(p: Part, o: Options, i: nat)
    requires SumRatio(p.items) > 0.0 && i < |p.items|
    ensures Times(Ideal(p, o, i), SumRatio(p.items)) == Times(InnerWidth(p, o), p.items[i].ratio)
  {
    hide InnerWidth, SumRatio;
    TimesDivisor(InnerWidth(p, o) * p.items[i].ratio, SumRatio(p.items));
  }

  lemma TimesDivisor(a: real, s: real)
    requires s > 0.0
    ensures a / s * s == a
  {
  }

  lemma Distribute(a: real, x: real, y: real)
    ensures Times(x + y, a) == Times(x, a) + Times(y, a) && Times(a, x + y) == Times(a, x) + Times(a, y)
  {
  }

  lemma {:induction false} RoundingErrors(p: Part, o: Options, k: nat)
    requires SumRatio(p.items) > 0.0 && k <= |p.items|
    ensures -(k as real) / 2.0 <= Assigned(p, o, k) as real - IdealSum(p, o, k) <= k as real / 2.0
  {
    if k > 0 {
      RoundingErrors(p, o, k - 1);
      assert -0.5 <= JsRound(Ideal(p, o, k - 1)) as real - Ideal(p, o, k - 1) <= 0.5;
    }
  }

  /** Every tile but the last is within half a pixel of its ideal width, the last within half a pixel for each of the others. */
  lemma CloseToIdeal(p: Part, o: Options, i: nat)
    requires p.items != [] && Positive(p.items) && SumRatio(p.items) > 0.0 && o.target > 0.0 && i < |p.items|
    ensures var error := Width(p, o, i) - Ideal(p, o, i);
      if i < |p.items| - 1 then -0.5 <= error <= 0.5 else -(i as real) / 2.0 <= error <= i as real / 2.0
  {
    IdealNonNegative(p, o, i);
    if i == |p.items| - 1 {
      IdealsFill(p, o, i);
      RoundingErrors(p, o, i);
    }
    hide Ideal, InnerWidth, Assigned, IdealSum;
  }

  /** The ideal widths share out the inner width. */
  lemma IdealsFill(p: Part, o: Options, i: nat)
    requires SumRatio(p.items) > 0.0 && i + 1 == |p.items|
    ensures IdealSum(p, o, i) + Ideal(p, o, i) == InnerWidth(p, o)
  {
    IdealSums(p, o, i + 1);
    assert p.items[..i + 1] == p.items;
    assert IdealSum(p, o, i + 1) == IdealSum(p, o, i) + Ideal(p, o, i);
    hide IdealSum, Ideal, InnerWidth, Times, SumRatio;
    Cancel(IdealSum(p, o, i + 1), InnerWidth(p, o), SumRatio(p.items));
  }

  lemma Cancel(a: real, b: real, s: real)
    requires s > 0.0 && Times(a, s) == Times(b, s)
    ensures a == b
  {
    assert (a - b) * s == 0.0;
  }

  /** A last tile that is wide enough for the rounding of the others is never cut, so the row ends at the edge. */
  lemma WideLastTileFills(p: Part, o: Options)
    requires Filled(p, o) && Unclamped(p.items, o)
    requires Ideal(p, o, |p.items| - 1) >= (|p.items| - 1) as real / 2.0
    ensures X(p, o, |p.items| - 1) + Width(p, o, |p.items| - 1) == o.width
  {
    var n := |p.items| - 1;
    FillsExactly(p, o);
    IdealsFill(p, o, n);
    RoundingErrors(p, o, n);
    hide Ideal, InnerWidth, Assigned, IdealSum, X;
  }

  function Squares(n: nat): (items: seq<Item>)
    ensures |items| == n && forall i :: 0 <= i < n ==> items[i] == Item("a", 1.0)
  {
    seq(n, i => Item("a", 1.0))
  }

  lemma {:induction false} SquaresSum(n: nat)
    ensures SumRatio(Squares(n)) == n as real
  {
    if n > 0 {
      assert Squares(n)[..n - 1] == Squares(n - 1);
      SquaresSum(n - 1);
    }
  }

  lemma SquaresReach(n: nat, o: Options)
    requires o == Options(2.0, 0.5, 0.0)
    ensures Reaches(Squares(n), o) <==> n >= 4
  {
    SquaresSum(n);
    hide SumRatio, Squares;
  }

  lemma FourSquaresMeasures(p: Part, o: Options)
    requires p == Part(Squares(4), true) && o == Options(2.0, 0.5, 0.0)
    ensures SumRatio(p.items) == 4.0 && FirstRow(p, p.items, o) && Unclamped(p.items, o)
    ensures forall i :: 0 <= i < 4 ==> Ideal(p, o, i) == 0.5
  {
    SquaresSum(4);
    hide SumRatio, Squares;
    SquaresReach(4, o);
    forall k | 0 < k < 4 ensures !Reaches(p.items[..k], o) {
      assert p.items[..k] == Squares(k);
      SquaresReach(k, o);
    }
  }

  /** The cut does happen, on whole pixels too, in a row that the layout breaks just here: three tiles of half a pixel
      take one pixel each, and the row ends beyond the edge. */
  lemma LastTileCut() returns (p: Part, o: Options)
    ensures Filled(p, o) && FirstRow(p, p.items, o) && Unclamped(p.items, o) && Whole(o.width) && Whole(o.gap)
    ensures RawWidth(p, o, |p.items| - 1) < 0.0 && X(p, o, |p.items| - 1) + Width(p, o, |p.items| - 1) > o.width
  {
    p, o := Part(Squares(4), true), Options(2.0, 0.5, 0.0);
    FourSquaresMeasures(p, o);
    hide Ideal, SumRatio, Reaches, Unclamped, Squares;
    assert JsRound(0.5) == 1;
    assert Assigned(p, o, 1) == 1 && Assigned(p, o, 2) == 2 && Assigned(p, o, 3) == 3;
    Positions(p, o, 3);
  }

  // ----- integers -----

  predicate Whole(r: real) { r.Floor as real == r }

  /** `as i64`, for values an `i64` can hold. */
  function Truncated(r: real): int { if r >= 0.0 then r.Floor else -((-r).Floor) }

  /** Towards zero. */
  lemma TruncatedIs(r: real)
    ensures r >= 0.0 ==> Truncated(r) as real <= r < Truncated(r) as real + 1.0
    ensures r <= 0.0 ==> Truncated(r) as real - 1.0 < r <= Truncated(r) as real
  {
  }

  lemma WholeInt(r: real, z: int)
    requires r == z as real
    ensures Whole(r) && r.Floor == z
  {
  }

  lemma TruncatedWhole(r: real)
    requires Whole(r)
    ensures Truncated(r) as real == r
  {
    WholeInt(-r, -r.Floor);
  }

  lemma WholeGap(n: nat, o: Options)
    requires Whole(o.gap)
    ensures Whole(TotalGap(n, o))
  {
    var g := o.gap.Floor;
    assert n as real - 1.0 == (n - 1) as real;
    ProductInt(g, n - 1);
    WholeInt(TotalGap(n, o), g * (n - 1));
  }

  lemma ProductInt(a: int, b: int)
    ensures a as real * b as real == (a * b) as real
  {
  }

  lemma InnerWhole(p: Part, o: Options)
    requires Whole(o.width) && Whole(o.gap) && SumRatio(p.items) > 0.0
    ensures Whole(InnerWidth(p, o))
  {
    WholeGap(|p.items|, o);
    hide TotalGap, JsRound;
    DifferenceWhole(o.width, TotalGap(|p.items|, o));
  }

  lemma DifferenceWhole(a: real, b: real)
    requires Whole(a) && Whole(b)
    ensures Whole(a - b) && Whole(a + b)
  {
    WholeInt(a - b, a.Floor - b.Floor);
    WholeInt(a + b, a.Floor + b.Floor);
  }

  lemma WidthWhole(p: Part, o: Options, i: nat)
    requires Whole(o.width) && Whole(o.gap) && SumRatio(p.items) > 0.0 && i < |p.items|
    ensures Whole(Width(p, o, i))
  {
    InnerWhole(p, o);
    hide InnerWidth, Assigned, JsRound, Ideal;
    DifferenceWhole(InnerWidth(p, o), Assigned(p, o, i) as real);
  }

  lemma {:induction false} PositionWhole(p: Part, o: Options, k: nat)
    requires Whole(o.width) && Whole(o.gap) && SumRatio(p.items) > 0.0 && k <= |p.items|
    ensures Whole(X(p, o, k))
  {
    hide Width;
    if k > 0 {
      WidthWhole(p, o, k - 1);
      PositionWhole(p, o, k - 1);
      DifferenceWhole(Width(p, o, k - 1), o.gap);
      DifferenceWhole(X(p, o, k - 1), Width(p, o, k - 1) + o.gap);
    }
  }

  // ----- rows -----

  /** A row as `buildRow` makes it in TypeScript. */
  ghost predicate TsRow(r: Row<real>, p: Part, o: Options) {
    && SumRatio(p.items) > 0.0 && r.height == RowHeight(p, o) as real && r.isLastRow == !p.fill && |r.tiles| == |p.items|
    && forall i :: 0 <= i < |r.tiles| ==> r.tiles[i] == Tile(p.items[i].id, X(p, o, i), Width(p, o, i))
  }

  /** A row as `build_row` makes it in Rust. */
  ghost predicate RustRow(r: Row<int>, p: Part, o: Options) {
    && SumRatio(p.items) > 0.0 && r.height == RowHeight(p, o) && r.isLastRow == !p.fill && |r.tiles| == |p.items|
    && forall i :: 0 <= i < |r.tiles| ==> r.tiles[i] == Tile(p.items[i].id, Truncated(X(p, o, i)), Truncated(Width(p, o, i)))
  }

  /** Both versions agree on the row up to the casts of the Rust port, which lose nothing when the container's width
      and the gap are whole pixels. */
  ghost predicate Agree(t: Row<real>, r: Row<int>, exact: bool) {
    && t.height == r.height as real && t.isLastRow == r.isLastRow && |t.tiles| == |r.tiles|
    && forall i :: 0 <= i < |t.tiles| ==>
         && t.tiles[i].id == r.tiles[i].id
         && r.tiles[i].x == Truncated(t.tiles[i].x) && r.tiles[i].width == Truncated(t.tiles[i].width)
         && (exact ==> t.tiles[i].x == r.tiles[i].x as real && t.tiles[i].width == r.tiles[i].width as real)
  }

  lemma SameRow(t: Row<real>, r: Row<int>, p: Part, o: Options)
    requires TsRow(t, p, o) && RustRow(r, p, o)
    ensures Agree(t, r, Whole(o.width) && Whole(o.gap))
  {
    hide X, Width, RowHeight, Truncated, Whole;
    if Whole(o.width) && Whole(o.gap) {
      forall i | 0 <= i < |t.tiles|
        ensures t.tiles[i].x == r.tiles[i].x as real && t.tiles[i].width == r.tiles[i].width as real
      {
        PositionWhole(p, o, i);
        WidthWhole(p, o, i);
        TruncatedWhole(X(p, o, i));
        TruncatedWhole(Width(p, o, i));
      }
    }
  }

  method RowMeasures(items: seq<Item>, sum: real, o: Options, fill: bool) returns (height: int, inner: real)
    requires items != [] && sum == SumRatio(items) > 0.0
    ensures height == RowHeight(Part(items, fill), o) && inner == InnerWidth(Part(items, fill), o)
  {
    hide JsRound, Clamp;
    var totalGap := o.gap * (|items| as real - 1.0);
    if fill {
      var natural := (o.width - totalGap) / sum;
      assert natural == NaturalHeight(items, o);
      var clamped := Clamp(natural, o.target * 0.6, o.target * 1.6);
      assert clamped == ClampedHeight(items, o);
      inner := if clamped == natural then o.width - totalGap else JsRound(clamped * sum) as real;
      assert Times(clamped, sum) == clamped * sum;
      height := JsRound(clamped);
    } else {
      assert Times(o.target, sum) == o.target * sum;
      height, inner := JsRound(o.target), JsRound(o.target * sum) as real;
    }
  }

  /** One step of the loop over the tiles: `given` is what the tiles before have got. */
  method TileWidth(items: seq<Item>, sum: real, o: Options, fill: bool, inner: real, i: nat, given: real)
    returns (width: real, more: real)
    requires i < |items| && sum == SumRatio(items) > 0.0 && inner == InnerWidth(Part(items, fill), o)
    requires given == Assigned(Part(items, fill), o, i) as real
    ensures width == Width(Part(items, fill), o, i)
    ensures i < |items| - 1 ==> more == Assigned(Part(items, fill), o, i + 1) as real
  {
    hide InnerWidth, JsRound, SumRatio;
    ghost var p := Part(items, fill);
    more := given;
    if i == |items| - 1 {
      width := inner - given;
    } else {
      assert Ideal(p, o, i) == Over(Times(inner, items[i].ratio), sum) == inner * items[i].ratio / sum;
      width := JsRound(inner * items[i].ratio / sum) as real;
      more := given + width;
    }
    if width < 0.0 {
      width := 0.0;
    }
  }

  method BuildRowTs(items: seq<Item>, sum: real, o: Options, fill: bool) returns (row: Row<real>)
    requires items != [] && sum == SumRatio(items) > 0.0
    ensures TsRow(row, Part(items, fill), o)
  {
    hide RowHeight, InnerWidth, Width, Assigned, SumRatio, X;
    ghost var p := Part(items, fill);
    var n := |items|;
    var height, inner := RowMeasures(items, sum, o, fill);
    var tiles: seq<Tile<real>> := [];
    var given, x := 0.0, 0.0;
    NothingGiven(p, o);
    for i := 0 to n
      invariant |tiles| == i && x == X(p, o, i) && (i < n ==> given == Assigned(p, o, i) as real)
      invariant forall j :: 0 <= j < i ==> tiles[j] == Tile(items[j].id, X(p, o, j), Width(p, o, j))
    {
      var width: real;
      width, given := TileWidth(items, sum, o, fill, inner, i, given);
      NextX(p, o, i);
      tiles := tiles + [Tile(items[i].id, x, width)];
      x := x + (width + o.gap);
    }
    row := Row(height as real, tiles, !fill);
  }

  method BuildRow(items: seq<Item>, sum: real, o: Options, fill: bool) returns (row: Row<int>)
    requires items != [] && sum == SumRatio(items) > 0.0
    ensures RustRow(row, Part(items, fill), o)
  {
    hide RowHeight, InnerWidth, Width, Assigned, SumRatio, Truncated, X;
    ghost var p := Part(items, fill);
    var n := |items|;
    var height, inner := RowMeasures(items, sum, o, fill);
    var tiles: seq<Tile<int>> := [];
    var given, x := 0.0, 0.0;
    NothingGiven(p, o);
    for i := 0 to n
      invariant |tiles| == i && x == X(p, o, i) && (i < n ==> given == Assigned(p, o, i) as real)
      invariant forall j :: 0 <= j < i ==> tiles[j] == Tile(items[j].id, Truncated(X(p, o, j)), Truncated(Width(p, o, j)))
    {
      var width: real;
      width, given := TileWidth(items, sum, o, fill, inner, i, given);
      NextX(p, o, i);
      tiles := tiles + [Tile(items[i].id, Truncated(x), Truncated(width))];
      x := x + (width + o.gap);
    }
    row := Row(height, tiles, !fill);
  }

  lemma NextX(p: Part, o: Options, i: nat)
    requires SumRatio(p.items) > 0.0 && i < |p.items|
    ensures X(p, o, i + 1) == X(p, o, i) + (Width(p, o, i) + o.gap)
  {
  }

  lemma NothingGiven(p: Part, o: Options)
    requires SumRatio(p.items) > 0.0
    ensures X(p, o, 0) == 0.0 && Assigned(p, o, 0) == 0
  {
  }

  // ----- the whole layout -----

  predicate Degenerate(items: seq<Item>, o: Options) {
    items == [] || o.width <= 0.0 || o.target <= 0.0
  }

  ghost predicate RustRows(rows: seq<Row<int>>, parts: seq<Part>, o: Options) {
    |rows| == |parts| && forall k :: 0 <= k < |rows| ==> RustRow(rows[k], parts[k], o)
  }

  ghost predicate TsRows(rows: seq<Row<real>>, parts: seq<Part>, o: Options) {
    |rows| == |parts| && forall k :: 0 <= k < |rows| ==> TsRow(rows[k], parts[k], o)
  }

  /** The items read but not yet laid out: none of their prefixes reaches the width. */
  ghost predicate Pending(parts: seq<Part>, buffer: seq<Item>, items: seq<Item>, i: nat, o: Options) {
    && |buffer| <= i <= |items| && buffer == items[i - |buffer|..i] && Partition(parts, items[..i - |buffer|], o) && AllFilled(parts)
    && forall k :: 0 < k <= |buffer| ==> !Reaches(buffer[..k], o)
  }

  lemma ClosedRow(items: seq<Item>, o: Options)
    requires items != [] && Reaches(items, o) && forall k :: 0 < k < |items| ==> !Reaches(items[..k], o)
    ensures FirstRow(Part(items, true), items, o)
  {
  }

  lemma Closes(parts: seq<Part>, buffer: seq<Item>, items: seq<Item>, i: nat, o: Options)
    requires Pending(parts, buffer, items, i, o) && i < |items|
    ensures var longer := buffer + [items[i]];
      if Reaches(longer, o) then Pending(parts + [Part(longer, true)], [], items, i + 1, o)
      else Pending(parts, longer, items, i + 1, o)
  {
    hide Reaches, Partition;
    var longer := buffer + [items[i]];
    var start := i - |buffer|;
    assert longer == items[start..i + 1];
    forall k | 0 < k < |longer| ensures longer[..k] == buffer[..k] && !Reaches(longer[..k], o) {}
    assert longer[..|longer|] == longer;
    if Reaches(longer, o) {
      ClosedRow(longer, o);
      PartitionAppend(parts, items[..start], Part(longer, true), o);
      assert items[..start] + longer == items[..i + 1];
    }
  }

  lemma Ends(parts: seq<Part>, buffer: seq<Item>, items: seq<Item>, o: Options)
    requires Pending(parts, buffer, items, |items|, o)
    ensures Partition(if buffer == [] then parts else parts + [Part(buffer, false)], items, o)
  {
    hide Reaches, Partition;
    var start := |items| - |buffer|;
    if buffer == [] {
      assert items[..start] == items;
    } else {
      assert buffer[..|buffer|] == buffer;
      PartitionAppend(parts, items[..start], Part(buffer, false), o);
      assert items[..start] + buffer == items;
    }
  }

  /** `justified_layout`. */
  method Layout(items: seq<Item>, o: Options) returns (rows: seq<Row<int>>, ghost parts: seq<Part>)
    ensures rows == [] <==> items == [] || o.width <= 0.0 || o.target <= 0.0
    ensures rows != [] ==> Partition(parts, CleanedAll(items), o) && RustRows(rows, parts, o)
  {
    hide RustRows, Pending, Reaches, Partition, Positive, SumRatio, WidthReached;
    rows, parts := [], [];
    if Degenerate(items, o) {
      return;
    }
    ghost var clean := CleanedAll(items);
    var buffer: seq<Item> := [];
    var sum := 0.0;
    NothingPending(clean, o);
    for i := 0 to |items|
      invariant Pending(parts, buffer, clean, i, o) && Positive(buffer) && sum == SumRatio(buffer) && RustRows(rows, parts, o)
      invariant |rows| == |parts|
    {
      var ratio := if items[i].ratio > 0.0 then items[i].ratio else 1.0;
      Closes(parts, buffer, clean, i, o);
      Buffered(buffer, items[i], ratio);
      buffer, sum := buffer + [items[i].(ratio := ratio)], sum + ratio;
      ReachesIf(buffer, sum, o);
      if WidthReached(sum, |buffer|, o) {
        var row := BuildRow(buffer, sum, o, true);
        RustRowsAppend(rows, parts, o, row, Part(buffer, true));
        rows, parts := rows + [row], parts + [Part(buffer, true)];
        buffer, sum := [], 0.0;
        NothingPending(clean, o);
      }
    }
    Ends(parts, buffer, clean, o);
    if buffer != [] {
      SumPositive(buffer);
      var row := BuildRow(buffer, sum, o, false);
      RustRowsAppend(rows, parts, o, row, Part(buffer, false));
      rows, parts := rows + [row], parts + [Part(buffer, false)];
    }
    SomeRow(parts, clean, o);
  }

  /** `justifiedLayout`. */
  method LayoutTs(items: seq<Item>, o: Options) returns (rows: seq<Row<real>>, ghost parts: seq<Part>)
    ensures rows == [] <==> items == [] || o.width <= 0.0 || o.target <= 0.0
    ensures rows != [] ==> Partition(parts, CleanedAll(items), o) && TsRows(rows, parts, o)
  {
    hide TsRows, Pending, Reaches, Partition, Positive, SumRatio, WidthReached;
    rows, parts := [], [];
    if Degenerate(items, o) {
      return;
    }
    ghost var clean := CleanedAll(items);
    var buffer: seq<Item> := [];
    var sum := 0.0;
    NothingPending(clean, o);
    for i := 0 to |items|
      invariant Pending(parts, buffer, clean, i, o) && Positive(buffer) && sum == SumRatio(buffer) && TsRows(rows, parts, o)
      invariant |rows| == |parts|
    {
      var ratio := if items[i].ratio > 0.0 then items[i].ratio else 1.0;
      Closes(parts, buffer, clean, i, o);
      Buffered(buffer, items[i], ratio);
      buffer, sum := buffer + [items[i].(ratio := ratio)], sum + ratio;
      ReachesIf(buffer, sum, o);
      if WidthReached(sum, |buffer|, o) {
        var row := BuildRowTs(buffer, sum, o, true);
        TsRowsAppend(rows, parts, o, row, Part(buffer, true));
        rows, parts := rows + [row], parts + [Part(buffer, true)];
        buffer, sum := [], 0.0;
        NothingPending(clean, o);
      }
    }
    Ends(parts, buffer, clean, o);
    if buffer != [] {
      SumPositive(buffer);
      var row := BuildRowTs(buffer, sum, o, false);
      TsRowsAppend(rows, parts, o, row, Part(buffer, false));
      rows, parts := rows + [row], parts + [Part(buffer, false)];
    }
    SomeRow(parts, clean, o);
  }

  lemma SomeRow(parts: seq<Part>, items: seq<Item>, o: Options)
    requires Partition(parts, items, o) && items != []
    ensures parts != []
  {
  }

  lemma NothingPending(items: seq<Item>, o: Options)
    ensures Pending([], [], items, 0, o) && Positive([]) && SumRatio([]) == 0.0 && RustRows([], [], o) && TsRows([], [], o)
  {
  }

  lemma Buffered(buffer: seq<Item>, item: Item, ratio: real)
    requires Positive(buffer) && ratio == if item.ratio > 0.0 then item.ratio else 1.0
    ensures Positive(buffer + [item.(ratio := ratio)])
    ensures SumRatio(buffer + [item.(ratio := ratio)]) == SumRatio(buffer) + ratio > 0.0
    ensures item.(ratio := ratio) == Cleaned(item)
  {
    var longer := buffer + [item.(ratio := ratio)];
    assert longer[..|buffer|] == buffer;
    SumPositive(buffer);
  }

  lemma RustRowsAppend(rows: seq<Row<int>>, parts: seq<Part>, o: Options, row: Row<int>, p: Part)
    requires RustRows(rows, parts, o) && RustRow(row, p, o)
    ensures RustRows(rows + [row], parts + [p], o)
  {
    hide RustRow;
  }

  lemma TsRowsAppend(rows: seq<Row<real>>, parts: seq<Part>, o: Options, row: Row<real>, p: Part)
    requires TsRows(rows, parts, o) && TsRow(row, p, o)
    ensures TsRows(rows + [row], parts + [p], o)
  {
    hide TsRow;
  }

  /** The test that closes a row. */
  predicate WidthReached(sum: real, n: nat, o: Options) {
    var totalGap := o.gap * (n as real - 1.0);
    sum * o.target + totalGap >= o.width
  }

  lemma ReachesIf(items: seq<Item>, sum: real, o: Options)
    requires sum == SumRatio(items)
    ensures Reaches(items, o) <==> WidthReached(sum, |items|, o)
  {
    assert Times(sum, o.target) == sum * o.target;
  }

  /** Only the last row can be marked as the last, and it is exactly when its items do not reach the width. */
  lemma LastRowMarked(items: seq<Item>, o: Options, rows: seq<Row<int>>, parts: seq<Part>, k: nat)
    requires Partition(parts, items, o) && RustRows(rows, parts, o) && k < |rows|
    ensures rows[k].isLastRow <==> k == |rows| - 1 && !Reaches(parts[k].items, o)
    decreases |parts|
  {
    PartitionConcat(parts, items, o);
    FilledReaches(parts, items, o, k);
    hide Partition, Reaches;
    assert RustRow(rows[k], parts[k], o);
  }

  lemma {:induction false} FilledReaches(parts: seq<Part>, items: seq<Item>, o: Options, k: nat)
    requires Partition(parts, items, o) && k < |parts|
    ensures parts[k].fill <==> Reaches(parts[k].items, o)
    decreases |parts|
  {
    hide Reaches;
    if k > 0 {
      FilledReaches(parts[1..], items[|parts[0].items|..], o, k - 1);
    }
  }

  /** The two versions agree on every input: the same rows, and the same tiles up to the casts. */
  lemma SameLayout(items: seq<Item>, o: Options, rust: seq<Row<int>>, rustParts: seq<Part>, ts: seq<Row<real>>, tsParts: seq<Part>)
    requires Partition(rustParts, CleanedAll(items), o) && RustRows(rust, rustParts, o)
    requires Partition(tsParts, CleanedAll(items), o) && TsRows(ts, tsParts, o)
    ensures |rust| == |ts|
    ensures forall k :: 0 <= k < |ts| ==> Agree(ts[k], rust[k], Whole(o.width) && Whole(o.gap))
  {
    PartitionUnique(rustParts, tsParts, CleanedAll(items), o);
    hide TsRow, RustRow, Agree, Whole;
    forall k | 0 <= k < |ts| ensures Agree(ts[k], rust[k], Whole(o.width) && Whole(o.gap)) {
      SameRow(ts[k], rust[k], tsParts[k], o);
    }
  }
}
