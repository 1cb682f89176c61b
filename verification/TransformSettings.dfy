/**
 What each setting of the seatmap transform decides: the box, the outlier clamp, the flip, the scale and its limits,
 the centring without the seats' midpoint, and the seat radius.
 */
module TransformSettings {
  import opened Options
  import opened SeatmapTransform

  // ------------------------------------------------------------------------ flip

  /** The seats nearer to the bottom edge of the box than to its top edge. */
  function Below(seats: seq<Seat>, box: Box): set<int> {
    set i | 0 <= i < |seats| && seats[i].y - box.minY > box.maxY - seats[i].y
  }

  lemma {:induction false} CountIsBelow(seats: seq<Seat>, box: Box)
    ensures CountBelow(seats, box.minY + box.Height() / 2.0) == |Below(seats, box)|
    decreases |seats|
  {
    if seats == [] {
      assert Below(seats, box) == {};
    } else {
      var rest, last := seats[..|seats| - 1], |seats| - 1;
      CountIsBelow(rest, box);
      var isBelow := seats[last].y - box.minY > box.maxY - seats[last].y;
      assert Below(seats, box) == Below(rest, box) + if isBelow then {last} else {};
    }
  }

  /** An override decides; then "up" flips and "down" does not; else it flips iff most seats are below the middle. */
  lemma FlipIff(seats: seq<Seat>, world: Option<Size>, canvas: Size, o: Settings)
    requires seats != []
    ensures var t := Compute(seats, world, canvas, o).value;
            t.flippedY <==>
              if o.flipOverride.Some? then o.flipOverride == Some(true)
              else o.yAxis == Up || (o.yAxis == Auto && 2 * |Below(seats, t.box)| > |seats|)
  {
    CountIsBelow(seats, UsedBox(seats, world, o));
  }

  // ---------------------------------------------------------------------- radius

  lemma RatioAgainst(base: real, scale: real, r: real)
    requires scale > 0.0
    ensures base / scale * scale == base
    ensures base / scale < r <==> base < r * scale
    ensures base / scale > r <==> base > r * scale
  {
    DivideBack(base, scale);
    var q := base / scale;
    if q < r { assert (r - q) * scale > 0.0; }
    if q > r { assert (q - r) * scale > 0.0; }
  }

  /** The base radius, shrunk as the scale grows, within its two limits, of which the lower one prevails. */
  predicate IsRadius(r: real, s: real, o: Settings) {
    && (o.maxRadius <= o.minRadius || o.baseRadius <= o.minRadius * s ==> r == o.minRadius)
    && (o.minRadius <= o.maxRadius && o.baseRadius >= o.maxRadius * s ==> r == o.maxRadius)
    && (o.minRadius * s <= o.baseRadius <= o.maxRadius * s ==> r * s == o.baseRadius)
  }

  /** Clamping the quotient is deciding by products. */
  lemma RadiusAt(s: real, o: Settings, q: real, r: real)
    requires s >= 0.000000001 && q == o.baseRadius / s && r == Max(o.minRadius, Min(q, o.maxRadius))
    ensures IsRadius(r, s, o)
  {
    RatioAgainst(o.baseRadius, s, o.minRadius);
    RatioAgainst(o.baseRadius, s, o.maxRadius);
    ClampedRadius(s, o, q, r);
  }

  lemma ClampedRadius(s: real, o: Settings, q: real, r: real)
    requires r == Max(o.minRadius, Min(q, o.maxRadius)) && q * s == o.baseRadius
    requires q < o.minRadius <==> o.baseRadius < o.minRadius * s
    requires q > o.minRadius <==> o.baseRadius > o.minRadius * s
    requires q < o.maxRadius <==> o.baseRadius < o.maxRadius * s
    requires q > o.maxRadius <==> o.baseRadius > o.maxRadius * s
    ensures IsRadius(r, s, o)
  {}

  lemma RadiusIsExact(seats: seq<Seat>, world: Option<Size>, canvas: Size, o: Settings)
    requires seats != []
    ensures var t := Compute(seats, world, canvas, o).value;
            IsRadius(t.radius, if t.scale < 0.000000001 then 0.000000001 else t.scale, o)
  {
    var t := Compute(seats, world, canvas, o).value;
    var s := Max(t.scale, 0.000000001);
    RadiusAt(s, o, o.baseRadius / s, t.radius);
  }

  // ----------------------------------------------------------------------- scale

  function AtLeastOne(r: real): real { if r < 1.0 then 1.0 else r }

  /** The part of the canvas inside the padding, which only optimal scaling keeps free. */
  function Inner(length: real, o: Settings): real {
    if o.useOptimalScaling then AtLeastOne(AtLeastOne(length) - 2.0 * o.padding) else AtLeastOne(length)
  }

  /** The box, no side of it counted as shorter than one, fits into the area at this scale. */
  predicate FitsAt(scale: real, box: Box, width: real, height: real) {
    AtLeastOne(box.Width()) * scale <= width && AtLeastOne(box.Height()) * scale <= height
  }

  /** At this scale it fits, and at no larger one. */
  predicate JustFitsAt(scale: real, box: Box, width: real, height: real) {
    && FitsAt(scale, box, width, height)
    && (AtLeastOne(box.Width()) * scale == width || AtLeastOne(box.Height()) * scale == height)
  }

  lemma FitIsExact(box: Box, area: Size, scale: real)
    ensures JustFitsAt(FitScale(box, area), box, area.width, area.height)
    ensures scale <= FitScale(box, area) <==> FitsAt(scale, box, area.width, area.height)
  {
    var w, h := AtLeastOne(box.Width()), AtLeastOne(box.Height());
    RatioAgainst(area.width, w, scale);
    RatioAgainst(area.height, h, scale);
    RatioAgainst(area.width, w, FitScale(box, area));
    RatioAgainst(area.height, h, FitScale(box, area));
  }

  lemma AreaIsInner(canvas: Size, o: Settings)
    ensures Effective(canvas, o) == Size(Inner(canvas.width, o), Inner(canvas.height, o))
  {}

  /** The limits that the scale kept to: the one that fits just so, or the limit that it would have overstepped. */
  lemma ScaleIsExact(seats: seq<Seat>, world: Option<Size>, canvas: Size, o: Settings)
    requires seats != [] && o.minScale <= o.maxScale
    ensures var t := Compute(seats, world, canvas, o).value;
            var width, height := Inner(canvas.width, o), Inner(canvas.height, o);
            && (if t.scaleClamped then
                  || (t.scale == o.minScale && !FitsAt(o.minScale, t.box, width, height))
                  || (t.scale == o.maxScale && FitsAt(o.maxScale, t.box, width, height)
                      && !JustFitsAt(o.maxScale, t.box, width, height))
                else JustFitsAt(t.scale, t.box, width, height) && o.minScale <= t.scale <= o.maxScale)
  {
    var box, area := UsedBox(seats, world, o), Effective(canvas, o);
    var fit := FitScale(box, area);
    AreaIsInner(canvas, o);
    FitIsExact(box, area, o.minScale);
    FitIsExact(box, area, o.maxScale);
    if o.maxScale < fit { LargerFitsLoosely(box, area, o.maxScale, fit); }
  }

  lemma LargerFitsLoosely(box: Box, area: Size, scale: real, fit: real)
    requires scale < fit && FitsAt(fit, box, area.width, area.height)
    ensures !JustFitsAt(scale, box, area.width, area.height)
  {
    assert AtLeastOne(box.Width()) * (fit - scale) > 0.0 && AtLeastOne(box.Height()) * (fit - scale) > 0.0;
  }

  // --------------------------------------------------------- centring by the box

  function Inset(o: Settings): real { if o.useOptimalScaling then o.padding else 0.0 }

  /** From `edge` on, a run of the scaled box leaves as much room as before it, or starts at 0 if it has no room. */
  predicate Centred(edge: real, run: real, length: real) {
    if run <= length then edge == length - (edge + run) else edge == 0.0
  }

  lemma OffsetByBox(o: Settings, length: real, scale: real, lo: real, hi: real, seatLo: real, seatHi: real)
    requires !o.usePerfectCentering
    ensures var d := Offset(o, length, scale, lo, hi, seatLo, seatHi);
            if o.centerContent then Centred(d, Scaled(lo, hi, scale), length) else d == 0.0
  {
    var run := (hi - lo) * scale;
    HalfOfRest(length, run);
  }

  lemma HalfOfRest(length: real, run: real)
    ensures Centred(Max(0.0, length - run) / 2.0, run, length)
  {}

  /** Where the corner of the box is meant, the padding and the fine-tuning aside. */
  function Corner(t: Transform, o: Settings): (real, real) {
    (t.dx - o.centeringOffsetX - Inset(o), t.dy - Inset(o))
  }

  /** The lengths of the scaled box. */
  function Runs(t: Transform): (real, real) {
    (Scaled(t.box.minX, t.box.maxX, t.scale), Scaled(t.box.minY, t.box.maxY, t.scale))
  }

  function Scaled(lo: real, hi: real, scale: real): real { (hi - lo) * scale }

  predicate Stands(corner: (real, real), runs: (real, real), centred: bool, area: Size) {
    if centred then Centred(corner.0, runs.0, area.width) && Centred(corner.1, runs.1, area.height)
    else corner == (0.0, 0.0)
  }

  lemma PlacedByBox(box: Box, seatBox: Box, area: Size, fit: real, flip: bool, o: Settings)
    requires !o.usePerfectCentering
    ensures var t := Place(box, seatBox, area, fit, flip, o); Stands(Corner(t, o), Runs(t), o.centerContent, area)
  {
    var t, scale := Place(box, seatBox, area, fit, flip, o), ClampScale(fit, o);
    var dx := Offset(o, area.width, scale, box.minX, box.maxX, seatBox.minX, seatBox.maxX);
    var dy := Offset(o, area.height, scale, box.minY, box.maxY, seatBox.minY, seatBox.maxY);
    OffsetByBox(o, area.width, scale, box.minX, box.maxX, seatBox.minX, seatBox.maxX);
    OffsetByBox(o, area.height, scale, box.minY, box.maxY, seatBox.minY, seatBox.maxY);
    assert Corner(t, o) == (dx, dy);
    assert t.box == box && t.scale == scale;
  }

  lemma ComputeIsPlace(seats: seq<Seat>, world: Option<Size>, canvas: Size, o: Settings)
    returns (box: Box, seatBox: Box, fit: real, flip: bool)
    requires seats != []
    ensures Compute(seats, world, canvas, o) == Some(Place(box, seatBox, Effective(canvas, o), fit, flip, o))
  {
    box, seatBox := UsedBox(seats, world, o), Widened(SeatBox(seats), o.epsilon);
    fit, flip := FitScale(box, Effective(canvas, o)), Flips(seats, box, o);
  }

  /** Without the seats' midpoint: the box is meant for the middle, or for the start of an axis it does not fit. */
  lemma BoxIsCentred(seats: seq<Seat>, world: Option<Size>, canvas: Size, o: Settings)
    requires seats != [] && !o.usePerfectCentering
    ensures var t := Compute(seats, world, canvas, o).value;
            Stands(Corner(t, o), Runs(t), o.centerContent, Size(Inner(canvas.width, o), Inner(canvas.height, o)))
  {
    var box, seatBox, fit, flip := ComputeIsPlace(seats, world, canvas, o);
    AreaIsInner(canvas, o);
    PlacedByBox(box, seatBox, Effective(canvas, o), fit, flip, o);
  }

  // ------------------------------------------------------------------- percentiles

  function CountLess(v: seq<real>, r: real): nat {
    if v == [] then 0 else CountLess(v[..|v| - 1], r) + if v[|v| - 1] < r then 1 else 0
  }

  function CountAtMost(v: seq<real>, r: real): nat {
    if v == [] then 0 else CountAtMost(v[..|v| - 1], r) + if v[|v| - 1] <= r then 1 else 0
  }

  lemma CountSnoc(v: seq<real>, x: real, r: real)
    ensures CountLess(v + [x], r) == CountLess(v, r) + if x < r then 1 else 0
    ensures CountAtMost(v + [x], r) == CountAtMost(v, r) + if x <= r then 1 else 0
  {
    assert (v + [x])[..|v|] == v;
  }

  lemma {:induction false} InsertCounts(v: seq<real>, x: real, r: real)
    ensures CountLess(InsertReal(v, x), r) == CountLess(v, r) + if x < r then 1 else 0
    ensures CountAtMost(InsertReal(v, x), r) == CountAtMost(v, r) + if x <= r then 1 else 0
    decreases |v|
  {
    if v == [] || v[|v| - 1] <= x {
      CountSnoc(v, x, r);
    } else {
      InsertCounts(v[..|v| - 1], x, r);
      CountSnoc(InsertReal(v[..|v| - 1], x), v[|v| - 1], r);
    }
  }

  lemma {:induction false} SortCounts(v: seq<real>, r: real)
    ensures CountLess(SortReals(v), r) == CountLess(v, r) && CountAtMost(SortReals(v), r) == CountAtMost(v, r)
    ensures |SortReals(v)| == |v|
    decreases |v|
  {
    if v != [] {
      SortCounts(v[..|v| - 1], r);
      InsertCounts(SortReals(v[..|v| - 1]), v[|v| - 1], r);
      InsertAdds(SortReals(v[..|v| - 1]), v[|v| - 1]);
      assert |multiset(SortReals(v))| == |SortReals(v)|;
    }
  }

  lemma {:induction false} CountsAtRank(s: seq<real>, k: nat, r: real)
    requires Ascending(s) && k < |s| && r == s[k]
    ensures CountLess(s, r) <= k < CountAtMost(s, r)
    decreases |s|
  {
    var rest := s[..|s| - 1];
    if k < |rest| {
      CountsAtRank(rest, k, r);
    } else {
      AllAtMost(rest, r);
    }
  }

  lemma {:induction false} AllAtMost(s: seq<real>, r: real)
    requires forall i :: 0 <= i < |s| ==> s[i] <= r
    ensures CountLess(s, r) <= |s| == CountAtMost(s, r)
    decreases |s|
  {
    if s != [] { AllAtMost(s[..|s| - 1], r); }
  }

  lemma PartOf(m: real, p: real)
    requires m >= 0.0 && 0.0 <= p <= 1.0
    ensures 0.0 <= m * p <= m
  {
    assert m * (1.0 - p) >= 0.0;
  }

  lemma RankIsExact(n: nat, p: real) returns (k: nat)
    requires n > 0 && 0.0 <= p <= 1.0
    ensures k == Rank(n, p) && k == ((n - 1) as real * p).Floor && k < n
  {
    var m := (n - 1) as real;
    PartOf(m, p);
    var at := m * p;
    FloorGrows(0.0, at);
    FloorGrows(at, m);
    k := at.Floor;
  }

  lemma QuantileAtRank(v: seq<real>, p: real, k: nat)
    requires v != [] && k == Rank(|v|, p)
    ensures CountLess(v, Quantile(v, p)) <= k < CountAtMost(v, Quantile(v, p))
  {
    SortSorts(v);
    SortCounts(v, Quantile(v, p));
    CountsAtRank(SortReals(v), k, Quantile(v, p));
  }

  /** The percentile of n values: fewer or as many as (n - 1) * p, rounded down, are less, and more are at most it. */
  lemma QuantileHasRank(v: seq<real>, p: real) returns (k: nat)
    requires v != [] && 0.0 <= p <= 1.0
    ensures k == ((|v| - 1) as real * p).Floor
    ensures CountLess(v, Quantile(v, p)) <= k < CountAtMost(v, Quantile(v, p))
  {
    k := RankIsExact(|v|, p);
    QuantileAtRank(v, p, k);
  }

  // ------------------------------------------------------------------------- box

  /** More than three times as long as what is left without the outermost hundredths, or as epsilon. */
  predicate Skewed(span: real, v: seq<real>, epsilon: real) {
    var trimmed := Quantile(v, 0.99) - Quantile(v, 0.01);
    if trimmed > 0.0 || epsilon > 0.0 then span > 3.0 * trimmed && span > 3.0 * epsilon else span > 0.0
  }

  /** The box of the seats, each side of which is widened by epsilon in all if either is zero. */
  predicate IsSeatsBox(box: Box, seats: seq<Seat>, epsilon: real)
    requires seats != []
  {
    var b := SeatBox(seats);
    if b.minX < b.maxX && b.minY < b.maxY then box == b
    else
      && box.minX + box.maxX == b.minX + b.maxX && box.Width() == b.Width() + epsilon
      && box.minY + box.maxY == b.minY + b.maxY && box.Height() == b.Height() + epsilon
  }

  /** A viewport is used as it is, but only without optimal scaling. */
  predicate UsesViewport(world: Option<Size>, o: Settings) {
    !o.useOptimalScaling && world.Some? && world.value.width > 0.0 && world.value.height > 0.0
  }

  /** Which box the scale is computed from: the viewport, the percentiles of skewed seats, or the seats' own. */
  lemma BoxIsExact(seats: seq<Seat>, world: Option<Size>, canvas: Size, o: Settings)
    requires seats != []
    ensures var t, own := Compute(seats, world, canvas, o).value, Widened(SeatBox(seats), o.epsilon);
            && IsSeatsBox(own, seats, o.epsilon)
            && (UsesViewport(world, o) ==> t.box == Box(0.0, world.value.width, 0.0, world.value.height))
            && (!UsesViewport(world, o) ==>
                  t.box ==
                  if o.clampOutliers && world == None
                     && (Skewed(own.Width(), Xs(seats), o.epsilon) || Skewed(own.Height(), Ys(seats), o.epsilon))
                  then Box(Quantile(Xs(seats), 0.01), Quantile(Xs(seats), 0.99),
                           Quantile(Ys(seats), 0.01), Quantile(Ys(seats), 0.99))
                  else own)
  {
    LeastIsLeast(Xs(seats));
    GreatestIsGreatest(Xs(seats));
    LeastIsLeast(Ys(seats));
    GreatestIsGreatest(Ys(seats));
    assert Least(Xs(seats)) <= Xs(seats)[0] <= Greatest(Xs(seats));
    assert Least(Ys(seats)) <= Ys(seats)[0] <= Greatest(Ys(seats));
  }
}
