/**
 How the mobile client fits a seatmap to its canvas: bounds, optional outlier clamp, flip, uniform scale and
 centring offsets. CGFloat is modelled by real; the list of warnings is left out.
 */
module SeatmapTransform {
  import opened Options

  datatype Seat = Seat(x: real, y: real)
  datatype YAxis = Auto | Up | Down

  datatype Settings = Settings(
    yAxis: YAxis, flipOverride: Option<bool>, minScale: real, maxScale: real, epsilon: real, centerContent: bool,
    baseRadius: real, minRadius: real, maxRadius: real, clampOutliers: bool, padding: real,
    useOptimalScaling: bool, usePerfectCentering: bool, centeringOffsetX: real)

  datatype Size = Size(width: real, height: real)
  datatype Box = Box(minX: real, maxX: real, minY: real, maxY: real) {
    function Width(): real { maxX - minX }
    function Height(): real { maxY - minY }
  }

  datatype Transform = Transform(
    scale: real, flippedY: bool, box: Box, dx: real, dy: real, radius: real, scaleClamped: bool)

  function Min(a: real, b: real): real { if a <= b then a else b }
  function Max(a: real, b: real): real { if a >= b then a else b }

  function Least(v: seq<real>): real
    requires v != []
  {
    if |v| == 1 then v[0] else Min(Least(v[..|v| - 1]), v[|v| - 1])
  }

  function Greatest(v: seq<real>): real
    requires v != []
  {
    if |v| == 1 then v[0] else Max(Greatest(v[..|v| - 1]), v[|v| - 1])
  }

  function Xs(seats: seq<Seat>): seq<real> {
    seq(|seats|, i requires 0 <= i < |seats| => seats[i].x)
  }

  function Ys(seats: seq<Seat>): seq<real> {
    seq(|seats|, i requires 0 <= i < |seats| => seats[i].y)
  }

  function SeatBox(seats: seq<Seat>): Box
    requires seats != []
  {
    Box(Least(Xs(seats)), Greatest(Xs(seats)), Least(Ys(seats)), Greatest(Ys(seats)))
  }

  /** A box without width or height is widened on both axes. */
  function Widened(b: Box, epsilon: real): Box {
    if b.Width() == 0.0 || b.Height() == 0.0
    then Box(b.minX - epsilon / 2.0, b.maxX + epsilon / 2.0, b.minY - epsilon / 2.0, b.maxY + epsilon / 2.0)
    else b
  }

  function ChosenBox(seatBox: Box, world: Option<Size>, o: Settings): Box {
    if o.useOptimalScaling then seatBox
    else if world.Some? && world.value.width > 0.0 && world.value.height > 0.0
    then Box(0.0, world.value.width, 0.0, world.value.height)
    else seatBox
  }

  function InsertReal(v: seq<real>, r: real): seq<real> {
    if v == [] || v[|v| - 1] <= r then v + [r] else InsertReal(v[..|v| - 1], r) + [v[|v| - 1]]
  }

  function SortReals(v: seq<real>): seq<real> {
    if v == [] then [] else InsertReal(SortReals(v[..|v| - 1]), v[|v| - 1])
  }

  /** The position a fraction p of the way through n values, kept within them. */
  function Rank(n: nat, p: real): (k: nat)
    requires n > 0
    ensures k < n
  {
    var at := ((n - 1) as real * p).Floor;
    if at < 0 then 0 else if at > n - 1 then n - 1 else at
  }

  function Quantile(v: seq<real>, p: real): real {
    var sorted := SortReals(v);
    if sorted == [] then 0.0 else sorted[Rank(|sorted|, p)]
  }

  /** span / trimmed > 3, where a zero divisor counts as infinite skew unless the span is zero too. */
  predicate IsSkewed(span: real, trimmed: real) {
    if trimmed > 0.0 then span > 3.0 * trimmed else span > 0.0
  }

  function FinalBox(seats: seq<Seat>, chosen: Box, world: Option<Size>, o: Settings): Box {
    if !o.clampOutliers || world.Some? then chosen
    else
      var x1, x99 := Quantile(Xs(seats), 0.01), Quantile(Xs(seats), 0.99);
      var y1, y99 := Quantile(Ys(seats), 0.01), Quantile(Ys(seats), 0.99);
      if IsSkewed(chosen.Width(), Max(o.epsilon, x99 - x1)) || IsSkewed(chosen.Height(), Max(o.epsilon, y99 - y1))
      then Box(x1, x99, y1, y99)
      else chosen
  }

  function CountBelow(seats: seq<Seat>, midline: real): nat {
    if seats == [] then 0
    else CountBelow(seats[..|seats| - 1], midline) + if seats[|seats| - 1].y > midline then 1 else 0
  }

  function Flips(seats: seq<Seat>, box: Box, o: Settings): bool {
    if o.flipOverride.Some? then o.flipOverride.value
    else match o.yAxis
      case Up => true
      case Down => false
      case Auto =>
        var below := CountBelow(seats, box.minY + box.Height() / 2.0);
        below > |seats| - below
  }

  /** The part of the canvas the seats may use. */
  function Effective(canvas: Size, o: Settings): Size {
    var w, h := Max(canvas.width, 1.0), Max(canvas.height, 1.0);
    if o.useOptimalScaling then Size(Max(w - 2.0 * o.padding, 1.0), Max(h - 2.0 * o.padding, 1.0)) else Size(w, h)
  }

  function FitScale(box: Box, area: Size): real {
    Min(area.width / Max(box.Width(), 1.0), area.height / Max(box.Height(), 1.0))
  }

  function ClampScale(scale: real, o: Settings): real {
    var raised := if scale < o.minScale then o.minScale else scale;
    if raised > o.maxScale then o.maxScale else raised
  }

  /** Where the left (or top) edge of the box goes, on one axis, before the padding is added. */
  function Offset(o: Settings, area: real, scale: real, lo: real, hi: real, seatLo: real, seatHi: real): real {
    if o.usePerfectCentering && o.centerContent then area / 2.0 - ((seatLo + seatHi) / 2.0 - lo) * scale
    else if o.centerContent then Max(0.0, area - (hi - lo) * scale) / 2.0
    else 0.0
  }

  function Radius(scale: real, o: Settings): real {
    Max(o.minRadius, Min(o.baseRadius / Max(scale, 0.000000001), o.maxRadius))
  }

  /** Scale and offsets for a chosen box, given the box of the seats themselves and the scale that just fits. */
  function Place(box: Box, seatBox: Box, area: Size, fit: real, flip: bool, o: Settings): Transform {
    var inset := if o.useOptimalScaling then o.padding else 0.0;
    var scale := ClampScale(fit, o);
    var dx := Offset(o, area.width, scale, box.minX, box.maxX, seatBox.minX, seatBox.maxX);
    var dy := Offset(o, area.height, scale, box.minY, box.maxY, seatBox.minY, seatBox.maxY);
    Transform(scale, flip, box, inset + dx + o.centeringOffsetX, inset + dy, Radius(scale, o),
              fit < o.minScale || scale != fit)
  }

  /** The box the scale is computed from. */
  function UsedBox(seats: seq<Seat>, world: Option<Size>, o: Settings): Box
    requires seats != []
  {
    FinalBox(seats, ChosenBox(Widened(SeatBox(seats), o.epsilon), world, o), world, o)
  }

  function Compute(seats: seq<Seat>, world: Option<Size>, canvas: Size, o: Settings): Option<Transform> {
    if seats == [] then None
    else
      var seatBox := Widened(SeatBox(seats), o.epsilon);
      var box := UsedBox(seats, world, o);
      var area := Effective(canvas, o);
      Some(Place(box, seatBox, area, FitScale(box, area), Flips(seats, box, o), o))
  }

  // -------------------------------------------------------------------- results

  /** Where the offsets mean a point to land: they count from the corner of the box the scale was computed from. */
  function ScreenX(t: Transform, x: real): real {
    (x - t.box.minX) * t.scale + t.dx
  }

  function ScreenY(t: Transform, y: real): real {
    (y - t.box.minY) * t.scale + t.dy
  }

  /** Where the client draws a point: it leaves that corner out, and flips about the height of the box. */
  function DrawnX(t: Transform, x: real): real {
    x * t.scale + t.dx
  }

  function DrawnY(t: Transform, y: real): real {
    if t.flippedY then (t.box.Height() - y) * t.scale + t.dy else y * t.scale + t.dy
  }

  /** Optimal scaling with perfect centring, fine-tuned or not, on a canvas larger than its padding. */
  predicate Plain(seats: seq<Seat>, canvas: Size, o: Settings) {
    && seats != []
    && o.useOptimalScaling && o.usePerfectCentering && o.centerContent
    && o.padding >= 0.0 && o.epsilon >= 0.0 && 0.0 < o.minScale <= o.maxScale
    && canvas.width >= 2.0 * o.padding + 1.0 && canvas.height >= 2.0 * o.padding + 1.0
  }

  /** Moreover the outlier clamp is off or leaves the seats' box as it is. */
  predicate Regular(seats: seq<Seat>, world: Option<Size>, canvas: Size, o: Settings) {
    Plain(seats, canvas, o) && UsedBox(seats, world, o) == Widened(SeatBox(seats), o.epsilon)
  }

  lemma {:induction false} LeastIsLeast(v: seq<real>)
    requires v != []
    ensures forall i :: 0 <= i < |v| ==> Least(v) <= v[i]
    ensures exists i :: 0 <= i < |v| && v[i] == Least(v)
    decreases |v|
  {
    if |v| > 1 {
      var w := v[..|v| - 1];
      LeastIsLeast(w);
      var i :| 0 <= i < |w| && w[i] == Least(w);
      assert v[i] == Least(w) && v[|v| - 1] == v[|v| - 1];
      forall k | 0 <= k < |v| ensures Least(v) <= v[k] {
        if k < |w| { assert w[k] == v[k]; }
      }
    } else {
      assert v[0] == Least(v);
    }
  }

  lemma {:induction false} GreatestIsGreatest(v: seq<real>)
    requires v != []
    ensures forall i :: 0 <= i < |v| ==> v[i] <= Greatest(v)
    ensures exists i :: 0 <= i < |v| && v[i] == Greatest(v)
    decreases |v|
  {
    if |v| > 1 {
      var w := v[..|v| - 1];
      GreatestIsGreatest(w);
      var i :| 0 <= i < |w| && w[i] == Greatest(w);
      assert v[i] == Greatest(w) && v[|v| - 1] == v[|v| - 1];
      forall k | 0 <= k < |v| ensures v[k] <= Greatest(v) {
        if k < |w| { assert w[k] == v[k]; }
      }
    } else {
      assert v[0] == Greatest(v);
    }
  }

  // ------------------------------------------------------------- outlier clamp

  predicate Ascending(v: seq<real>) {
    forall i, j :: 0 <= i <= j < |v| ==> v[i] <= v[j]
  }

  lemma {:induction false} InsertAdds(v: seq<real>, r: real)
    ensures multiset(InsertReal(v, r)) == multiset(v + [r])
    decreases |v|
  {
    if v != [] && v[|v| - 1] > r {
      InsertAdds(v[..|v| - 1], r);
      assert v == v[..|v| - 1] + [v[|v| - 1]];
    }
  }

  lemma {:induction false} InsertKeepsOrder(v: seq<real>, r: real, top: real)
    requires Ascending(v) && r <= top && (v != [] ==> v[|v| - 1] <= top)
    ensures var t := InsertReal(v, r); Ascending(t) && t[|t| - 1] <= top
    decreases |v|
  {
    if v != [] && v[|v| - 1] > r {
      InsertKeepsOrder(v[..|v| - 1], r, v[|v| - 1]);
    }
  }

  lemma {:induction false} SortSorts(v: seq<real>)
    ensures Ascending(SortReals(v)) && multiset(SortReals(v)) == multiset(v)
    decreases |v|
  {
    if v != [] {
      var rest, last := v[..|v| - 1], v[|v| - 1];
      SortSorts(rest);
      var sorted := SortReals(rest);
      InsertAdds(sorted, last);
      var top := if sorted == [] || last >= sorted[|sorted| - 1] then last else sorted[|sorted| - 1];
      InsertKeepsOrder(sorted, last, top);
      assert v == rest + [last];
    }
  }

  lemma RankGrows(n: nat, p: real, q: real)
    requires n > 0 && p <= q
    ensures Rank(n, p) <= Rank(n, q)
  {
    var m := (n - 1) as real;
    MulMonotone(p, q, m);
    FloorGrows(m * p, m * q);
  }

  lemma FloorGrows(a: real, b: real)
    requires a <= b
    ensures a.Floor <= b.Floor
  {}

  lemma SortedMembers(v: seq<real>)
    requires v != []
    ensures forall i :: 0 <= i < |SortReals(v)| ==> Least(v) <= SortReals(v)[i] <= Greatest(v)
  {
    SortSorts(v);
    LeastIsLeast(v);
    GreatestIsGreatest(v);
    forall i | 0 <= i < |SortReals(v)| ensures Least(v) <= SortReals(v)[i] <= Greatest(v) {
      assert SortReals(v)[i] in multiset(v);
    }
  }

  /** Percentiles are values of the sample and grow with the fraction asked for. */
  lemma QuantilesAreOrdered(v: seq<real>, p: real, q: real)
    requires v != [] && p <= q
    ensures Least(v) <= Quantile(v, p) <= Quantile(v, q) <= Greatest(v)
  {
    SortSorts(v);
    assert |multiset(SortReals(v))| == |multiset(v)|;
    SortedMembers(v);
    RankGrows(|v|, p, q);
  }

  /** The clamp either leaves the box alone or cuts it down to a part of the seats' box, never inverted. */
  lemma ClampCutsDown(seats: seq<Seat>, chosen: Box, world: Option<Size>, o: Settings)
    requires seats != []
    ensures var f, b := FinalBox(seats, chosen, world, o), SeatBox(seats);
            f == chosen || (b.minX <= f.minX <= f.maxX <= b.maxX && b.minY <= f.minY <= f.maxY <= b.maxY)
  {
    QuantilesAreOrdered(Xs(seats), 0.01, 0.99);
    QuantilesAreOrdered(Ys(seats), 0.01, 0.99);
  }

  lemma SeatsInBox(seats: seq<Seat>, epsilon: real)
    requires seats != [] && epsilon >= 0.0
    ensures var b := Widened(SeatBox(seats), epsilon);
            && b.minX <= b.maxX && b.minY <= b.maxY
            && forall s :: s in seats ==> b.minX <= s.x <= b.maxX && b.minY <= s.y <= b.maxY
  {
    LeastIsLeast(Xs(seats));
    GreatestIsGreatest(Xs(seats));
    LeastIsLeast(Ys(seats));
    GreatestIsGreatest(Ys(seats));
    forall s | s in seats
      ensures SeatBox(seats).minX <= s.x <= SeatBox(seats).maxX && SeatBox(seats).minY <= s.y <= SeatBox(seats).maxY
    {
      var i :| 0 <= i < |seats| && seats[i] == s;
      assert Xs(seats)[i] == s.x && Ys(seats)[i] == s.y;
    }
    assert seats[0] in seats;
  }

  lemma MulMonotone(a: real, b: real, s: real)
    requires a <= b && s >= 0.0
    ensures a * s <= b * s
  {}

  lemma DivideBack(a: real, b: real)
    requires b > 0.0
    ensures a / b * b == a
  {}

  lemma RatioFits(scale: real, area: real, span: real)
    requires area > 0.0 && span >= 0.0 && 0.0 <= scale <= area / Max(span, 1.0)
    ensures span * scale <= area
  {
    var m := Max(span, 1.0);
    DivideBack(area, m);
    MulMonotone(scale, area / m, m);
    MulMonotone(span, m, scale);
  }

  function Area(canvas: Size, o: Settings): Size {
    Size(canvas.width - 2.0 * o.padding, canvas.height - 2.0 * o.padding)
  }

  function Middle(b: Box): (real, real) {
    ((b.minX + b.maxX) / 2.0, (b.minY + b.maxY) / 2.0)
  }

  // -------------------------------------------------------- around the midpoint

  lemma WideningKeepsMidpoint(b: Box, epsilon: real)
    ensures Middle(Widened(b, epsilon)) == Middle(b)
  {}

  /** The transform scales about the midpoint of the box, which it means to put on mid-canvas, fine-tuning aside. */
  predicate ScalesAbout(t: Transform, canvas: Size, b: Box, o: Settings) {
    && t.dx == canvas.width / 2.0 + o.centeringOffsetX - (Middle(b).0 - t.box.minX) * t.scale
    && t.dy == canvas.height / 2.0 - (Middle(b).1 - t.box.minY) * t.scale
  }

  lemma PlacedAbout(used: Box, box: Box, canvas: Size, fit: real, flip: bool, o: Settings)
    requires o.useOptimalScaling && o.usePerfectCentering && o.centerContent
    ensures ScalesAbout(Place(used, box, Area(canvas, o), fit, flip, o), canvas, box, o)
  {}

  /** The scale that just fits the box it is computed from, before the scale limits. */
  function Fit(seats: seq<Seat>, world: Option<Size>, canvas: Size, o: Settings): real
    requires seats != []
  {
    FitScale(UsedBox(seats, world, o), Effective(canvas, o))
  }

  lemma SameMiddle(t: Transform, canvas: Size, b: Box, c: Box, o: Settings)
    requires ScalesAbout(t, canvas, b, o) && Middle(b) == Middle(c)
    ensures ScalesAbout(t, canvas, c, o)
  {}

  lemma ClampIsPositive(fit: real, o: Settings)
    requires 0.0 < o.minScale <= o.maxScale
    ensures ClampScale(fit, o) > 0.0
  {}

  /** What a plain computation amounts to, whatever the clamp and the scale limits did. */
  lemma PlainTransform(seats: seq<Seat>, world: Option<Size>, canvas: Size, o: Settings) returns (t: Transform)
    requires Plain(seats, canvas, o)
    ensures Compute(seats, world, canvas, o) == Some(t) && t.box == UsedBox(seats, world, o)
    ensures t.flippedY == Flips(seats, t.box, o)
    ensures t.scale == ClampScale(Fit(seats, world, canvas, o), o) && t.scale > 0.0
    ensures ScalesAbout(t, canvas, SeatBox(seats), o)
  {
    var used, box := UsedBox(seats, world, o), Widened(SeatBox(seats), o.epsilon);
    var fit, flip := Fit(seats, world, canvas, o), Flips(seats, used, o);
    t := Place(used, box, Area(canvas, o), fit, flip, o);
    assert Effective(canvas, o) == Area(canvas, o);
    ClampIsPositive(fit, o);
    PlacedAbout(used, box, canvas, fit, flip, o);
    WideningKeepsMidpoint(SeatBox(seats), o.epsilon);
    SameMiddle(t, canvas, box, SeatBox(seats), o);
  }

  /** How far from mid-canvas the midpoint of the seats comes to lie. */
  datatype Shift = Shift(x: real, y: real)

  function MeantShift(o: Settings): Shift { Shift(o.centeringOffsetX, 0.0) }

  /** As drawn, the corner of the box is added, scaled; a flip mirrors the seats' midpoint within it. */
  function DrawnShift(t: Transform, b: Box, o: Settings): Shift {
    Shift(o.centeringOffsetX + t.box.minX * t.scale,
          (if t.flippedY then t.box.maxY - (b.minY + b.maxY) else t.box.minY) * t.scale)
  }

  /** The scaled distance of a coordinate from a middle. */
  function Run(x: real, middle: real, scale: real): real { (x - middle) * scale }

  lemma PointAbout(t: Transform, canvas: Size, b: Box, o: Settings, x: real, y: real)
    requires ScalesAbout(t, canvas, b, o)
    ensures ScreenX(t, x) == canvas.width / 2.0 + Run(x, Middle(b).0, t.scale) + o.centeringOffsetX
    ensures ScreenY(t, y) == canvas.height / 2.0 + Run(y, Middle(b).1, t.scale)
  {
    assert (x - t.box.minX) * t.scale - (Middle(b).0 - t.box.minX) * t.scale == (x - Middle(b).0) * t.scale;
    assert (y - t.box.minY) * t.scale - (Middle(b).1 - t.box.minY) * t.scale == (y - Middle(b).1) * t.scale;
  }

  lemma DrawnXAbout(t: Transform, canvas: Size, b: Box, o: Settings, x: real)
    requires ScalesAbout(t, canvas, b, o)
    ensures DrawnX(t, x) == canvas.width / 2.0 + Run(x, Middle(b).0, t.scale) + DrawnShift(t, b, o).x
  {
    assert x * t.scale - (Middle(b).0 - t.box.minX) * t.scale == (x - Middle(b).0) * t.scale + t.box.minX * t.scale;
  }

  function Turn(rise: real, flip: bool): real { if flip then -rise else rise }

  lemma DrawnYAbout(t: Transform, canvas: Size, b: Box, o: Settings, y: real)
    requires ScalesAbout(t, canvas, b, o)
    ensures DrawnY(t, y)
            == canvas.height / 2.0 + Turn(Run(y, Middle(b).1, t.scale), t.flippedY) + DrawnShift(t, b, o).y
  {
    var m, h := Middle(b).1, t.box.maxY - t.box.minY;
    if t.flippedY {
      assert h - y - (m - t.box.minY) == -(y - m) + (t.box.maxY - (b.minY + b.maxY));
      Distribute(h - y, m - t.box.minY, t.scale);
      Sum(-(y - m), t.box.maxY - (b.minY + b.maxY), t.scale);
      Negate(y - m, t.scale);
    } else {
      Distribute(y, m - t.box.minY, t.scale);
      Sum(y - m, t.box.minY, t.scale);
    }
  }

  lemma Distribute(a: real, b: real, c: real)
    ensures (a - b) * c == a * c - b * c
  {}

  lemma Sum(a: real, b: real, c: real)
    ensures (a + b) * c == a * c + b * c
  {}

  lemma Negate(a: real, c: real)
    ensures (-a) * c == -(a * c)
  {}

  // ------------------------------------------------------------- the midpoint

  lemma MiddleMeant(t: Transform, canvas: Size, b: Box, o: Settings)
    requires ScalesAbout(t, canvas, b, o)
    ensures ScreenX(t, Middle(b).0) == canvas.width / 2.0 + o.centeringOffsetX
    ensures ScreenY(t, Middle(b).1) == canvas.height / 2.0
  {
    PointAbout(t, canvas, b, o, Middle(b).0, Middle(b).1);
  }

  lemma MiddleDrawn(t: Transform, canvas: Size, b: Box, o: Settings)
    requires ScalesAbout(t, canvas, b, o)
    ensures DrawnX(t, Middle(b).0) == canvas.width / 2.0 + DrawnShift(t, b, o).x
    ensures DrawnY(t, Middle(b).1) == canvas.height / 2.0 + DrawnShift(t, b, o).y
  {
    DrawnXAbout(t, canvas, b, o, Middle(b).0);
    DrawnYAbout(t, canvas, b, o, Middle(b).1);
  }

  /** The midpoint of the seats is meant for the middle of the canvas, whatever the clamp and the scale limits did. */
  lemma MidpointIsCentred(seats: seq<Seat>, world: Option<Size>, canvas: Size, o: Settings)
    requires Plain(seats, canvas, o)
    ensures var t, b := Compute(seats, world, canvas, o).value, SeatBox(seats);
            && ScreenX(t, Middle(b).0) == canvas.width / 2.0 + o.centeringOffsetX
            && ScreenY(t, Middle(b).1) == canvas.height / 2.0
  {
    var t := PlainTransform(seats, world, canvas, o);
    MiddleMeant(t, canvas, SeatBox(seats), o);
  }

  /** The drawn midpoint is on the vertical middle line of the canvas. */
  predicate DrawnCentredX(t: Transform, b: Box, canvas: Size) { DrawnX(t, Middle(b).0) == canvas.width / 2.0 }

  predicate DrawnCentredY(t: Transform, b: Box, canvas: Size) { DrawnY(t, Middle(b).1) == canvas.height / 2.0 }

  /** What keeps the drawn midpoint centred: the scaled corner of the box cancels against the fine-tuning. */
  predicate CornerCancels(t: Transform, o: Settings) { t.box.minX * t.scale == -o.centeringOffsetX }

  /** Unflipped, the box starts at height zero; flipped, it ends at the sum of the lowest and highest seat. */
  predicate HeightCancels(t: Transform, b: Box) {
    if t.flippedY then t.box.maxY == b.minY + b.maxY else t.box.minY == 0.0
  }

  lemma CentredWhenCancelled(t: Transform, canvas: Size, b: Box, o: Settings)
    requires ScalesAbout(t, canvas, b, o) && t.scale > 0.0
    ensures DrawnCentredX(t, b, canvas) <==> CornerCancels(t, o)
    ensures DrawnCentredY(t, b, canvas) <==> HeightCancels(t, b)
  {
    MiddleDrawn(t, canvas, b, o);
    NoProduct(if t.flippedY then t.box.maxY - (b.minY + b.maxY) else t.box.minY, t.scale);
  }

  lemma NoProduct(a: real, c: real)
    requires c > 0.0
    ensures a * c == 0.0 <==> a == 0.0
  {}

  /** Exactly when the seats are drawn in the middle of the canvas, axis by axis. */
  lemma DrawnCentredIff(seats: seq<Seat>, world: Option<Size>, canvas: Size, o: Settings)
    requires Plain(seats, canvas, o)
    ensures var t, b := Compute(seats, world, canvas, o).value, SeatBox(seats);
            && t.box == UsedBox(seats, world, o)
            && (DrawnCentredX(t, b, canvas) <==> CornerCancels(t, o))
            && (DrawnCentredY(t, b, canvas) <==> HeightCancels(t, b))
  {
    var t := PlainTransform(seats, world, canvas, o);
    CentredWhenCancelled(t, canvas, SeatBox(seats), o);
  }

  // ------------------------------------------------------- inside the padding

  predicate Within(x: real, y: real, canvas: Size, pad: real) {
    pad <= x <= canvas.width - pad && pad <= y <= canvas.height - pad
  }

  predicate Inside(s: Seat, t: Transform, canvas: Size, pad: real) {
    Within(ScreenX(t, s.x), ScreenY(t, s.y), canvas, pad)
  }

  predicate DrawnInside(s: Seat, t: Transform, canvas: Size, pad: real) {
    Within(DrawnX(t, s.x), DrawnY(t, s.y), canvas, pad)
  }

  ghost predicate AllInside(seats: seq<Seat>, t: Transform, canvas: Size, pad: real) {
    forall s :: s in seats ==> Inside(s, t, canvas, pad)
  }

  ghost predicate AllDrawnInside(seats: seq<Seat>, t: Transform, canvas: Size, pad: real) {
    forall s :: s in seats ==> DrawnInside(s, t, canvas, pad)
  }

  function Abs(r: real): real { if r < 0.0 then -r else r }

  /** A value, scaled about the middle of its sample and shifted, stays within half a length of the origin. */
  predicate Reaches(x: real, lo: real, hi: real, scale: real, shift: real, length: real) {
    -length / 2.0 <= Run(x, (lo + hi) / 2.0, scale) + shift <= length / 2.0
  }

  lemma HalfSpan(lo: real, hi: real, scale: real)
    ensures Run(hi, (lo + hi) / 2.0, scale) == (hi - lo) * scale / 2.0
    ensures Run(lo, (lo + hi) / 2.0, scale) == -((hi - lo) * scale / 2.0)
  {
    assert hi - (lo + hi) / 2.0 == (hi - lo) / 2.0 && lo - (lo + hi) / 2.0 == -(hi - lo) / 2.0;
    assert (hi - lo) / 2.0 * scale == (hi - lo) * scale / 2.0;
    assert -(hi - lo) / 2.0 * scale == -((hi - lo) * scale / 2.0);
  }

  lemma SpanIsPositive(lo: real, hi: real, scale: real)
    requires lo <= hi && scale >= 0.0
    ensures (hi - lo) * scale >= 0.0
  {}

  lemma EndsReach(lo: real, hi: real, scale: real, shift: real, length: real)
    requires lo <= hi && scale >= 0.0
    ensures Reaches(lo, lo, hi, scale, shift, length) && Reaches(hi, lo, hi, scale, shift, length)
            <==> (hi - lo) * scale + 2.0 * Abs(shift) <= length
  {
    HalfSpan(lo, hi, scale);
    SpanIsPositive(lo, hi, scale);
  }

  lemma BetweenScaled(a: real, b: real, c: real, scale: real, least: real, most: real)
    requires a <= b <= c && scale >= 0.0 && least <= a * scale && c * scale <= most
    ensures least <= b * scale <= most
  {
    MulMonotone(a, b, scale);
    MulMonotone(b, c, scale);
  }

  lemma BetweenReaches(x: real, lo: real, hi: real, scale: real, shift: real, length: real)
    requires lo <= x <= hi && scale >= 0.0
    requires Reaches(lo, lo, hi, scale, shift, length) && Reaches(hi, lo, hi, scale, shift, length)
    ensures Reaches(x, lo, hi, scale, shift, length)
  {
    var m := (lo + hi) / 2.0;
    BetweenScaled(lo - m, x - m, hi - m, scale, -length / 2.0 - shift, length / 2.0 - shift);
  }

  predicate SeatReaches(s: Seat, b: Box, scale: real, shift: Shift, area: Size) {
    && Reaches(s.x, b.minX, b.maxX, scale, shift.x, area.width)
    && Reaches(s.y, b.minY, b.maxY, scale, shift.y, area.height)
  }

  /** Both scaled spans of the box fit into the area, and leave room for the shift on either side. */
  predicate SpansFit(b: Box, scale: real, shift: Shift, area: Size) {
    && b.Width() * scale + 2.0 * Abs(shift.x) <= area.width
    && b.Height() * scale + 2.0 * Abs(shift.y) <= area.height
  }

  predicate InBox(s: Seat, b: Box) {
    b.minX <= s.x <= b.maxX && b.minY <= s.y <= b.maxY
  }

  lemma FittingSeatReaches(s: Seat, b: Box, scale: real, shift: Shift, area: Size)
    requires InBox(s, b) && scale >= 0.0 && SpansFit(b, scale, shift, area)
    ensures SeatReaches(s, b, scale, shift, area)
  {
    EndsReach(b.minX, b.maxX, scale, shift.x, area.width);
    EndsReach(b.minY, b.maxY, scale, shift.y, area.height);
    BetweenReaches(s.x, b.minX, b.maxX, scale, shift.x, area.width);
    BetweenReaches(s.y, b.minY, b.maxY, scale, shift.y, area.height);
  }

  lemma EdgesTell(left: Seat, right: Seat, top: Seat, bottom: Seat, b: Box, scale: real, shift: Shift, area: Size)
    requires left.x == b.minX && right.x == b.maxX && top.y == b.minY && bottom.y == b.maxY
    requires b.minX <= b.maxX && b.minY <= b.maxY && scale >= 0.0
    requires SeatReaches(left, b, scale, shift, area) && SeatReaches(right, b, scale, shift, area)
    requires SeatReaches(top, b, scale, shift, area) && SeatReaches(bottom, b, scale, shift, area)
    ensures SpansFit(b, scale, shift, area)
  {
    EndsReach(b.minX, b.maxX, scale, shift.x, area.width);
    EndsReach(b.minY, b.maxY, scale, shift.y, area.height);
  }

  /** The box is tight: each of its edges has a seat on it. */
  lemma EdgesHaveSeats(seats: seq<Seat>) returns (left: Seat, right: Seat, top: Seat, bottom: Seat)
    requires seats != []
    ensures left in seats && right in seats && top in seats && bottom in seats
    ensures var b := SeatBox(seats); left.x == b.minX && right.x == b.maxX && top.y == b.minY && bottom.y == b.maxY
  {
    LeastIsLeast(Xs(seats));
    GreatestIsGreatest(Xs(seats));
    LeastIsLeast(Ys(seats));
    GreatestIsGreatest(Ys(seats));
    var i :| 0 <= i < |seats| && Xs(seats)[i] == Least(Xs(seats));
    var j :| 0 <= j < |seats| && Xs(seats)[j] == Greatest(Xs(seats));
    var k :| 0 <= k < |seats| && Ys(seats)[k] == Least(Ys(seats));
    var l :| 0 <= l < |seats| && Ys(seats)[l] == Greatest(Ys(seats));
    left, right, top, bottom := seats[i], seats[j], seats[k], seats[l];
  }

  ghost predicate AllReach(seats: seq<Seat>, b: Box, scale: real, shift: Shift, area: Size) {
    forall s :: s in seats ==> SeatReaches(s, b, scale, shift, area)
  }

  /** All seats stay within the area exactly when both scaled spans, with the shift on either side, fit into it. */
  lemma AllReachIff(seats: seq<Seat>, b: Box, scale: real, shift: Shift, area: Size)
    requires seats != [] && b == SeatBox(seats) && scale > 0.0
    ensures AllReach(seats, b, scale, shift, area) <==> SpansFit(b, scale, shift, area)
  {
    SeatsInBox(seats, 0.0);
    if AllReach(seats, b, scale, shift, area) {
      var left, right, top, bottom := EdgesHaveSeats(seats);
      EdgesTell(left, right, top, bottom, b, scale, shift, area);
    } else if SpansFit(b, scale, shift, area) {
      forall s | s in seats ensures SeatReaches(s, b, scale, shift, area) {
        FittingSeatReaches(s, b, scale, shift, area);
      }
    }
  }

  /** One axis of a point put `run` and `shift` away from mid-canvas. */
  lemma WithinAxis(p: real, size: real, pad: real, run: real, shift: real)
    requires p == size / 2.0 + run + shift
    ensures pad <= p <= size - pad <==> -(size - 2.0 * pad) / 2.0 <= run + shift <= (size - 2.0 * pad) / 2.0
  {}

  /** A flip turns the vertical axis over, and the shift with it. */
  function Turned(shift: Shift, flip: bool): Shift { Shift(shift.x, Turn(shift.y, flip)) }

  lemma WithinTurned(p: real, size: real, pad: real, run: real, shift: real, flip: bool)
    requires p == size / 2.0 + Turn(run, flip) + shift
    ensures pad <= p <= size - pad
            <==> -(size - 2.0 * pad) / 2.0 <= run + Turn(shift, flip) <= (size - 2.0 * pad) / 2.0
  {}

  /** A seat is meant inside exactly when both its coordinates stay within the padded lengths. */
  lemma InsideAxes(s: Seat, t: Transform, canvas: Size, b: Box, o: Settings)
    requires ScalesAbout(t, canvas, b, o)
    ensures Inside(s, t, canvas, o.padding) <==> SeatReaches(s, b, t.scale, MeantShift(o), Area(canvas, o))
  {
    PointAbout(t, canvas, b, o, s.x, s.y);
    WithinAxis(ScreenX(t, s.x), canvas.width, o.padding, Run(s.x, Middle(b).0, t.scale), o.centeringOffsetX);
    WithinAxis(ScreenY(t, s.y), canvas.height, o.padding, Run(s.y, Middle(b).1, t.scale), 0.0);
  }

  lemma DrawnAxes(s: Seat, t: Transform, canvas: Size, b: Box, o: Settings)
    requires ScalesAbout(t, canvas, b, o)
    ensures DrawnInside(s, t, canvas, o.padding)
            <==> SeatReaches(s, b, t.scale, Turned(DrawnShift(t, b, o), t.flippedY), Area(canvas, o))
  {
    var shift := DrawnShift(t, b, o);
    DrawnXAbout(t, canvas, b, o, s.x);
    DrawnYAbout(t, canvas, b, o, s.y);
    WithinAxis(DrawnX(t, s.x), canvas.width, o.padding, Run(s.x, Middle(b).0, t.scale), shift.x);
    WithinTurned(DrawnY(t, s.y), canvas.height, o.padding, Run(s.y, Middle(b).1, t.scale), shift.y, t.flippedY);
  }

  lemma MeantIffFits(seats: seq<Seat>, t: Transform, canvas: Size, b: Box, o: Settings)
    requires seats != [] && b == SeatBox(seats) && ScalesAbout(t, canvas, b, o) && t.scale > 0.0
    ensures AllInside(seats, t, canvas, o.padding) <==> SpansFit(b, t.scale, MeantShift(o), Area(canvas, o))
  {
    AllReachIff(seats, b, t.scale, MeantShift(o), Area(canvas, o));
    forall s | s in seats
      ensures Inside(s, t, canvas, o.padding) <==> SeatReaches(s, b, t.scale, MeantShift(o), Area(canvas, o))
    {
      InsideAxes(s, t, canvas, b, o);
    }
  }

  lemma DrawnIffFits(seats: seq<Seat>, t: Transform, canvas: Size, b: Box, o: Settings)
    requires seats != [] && b == SeatBox(seats) && ScalesAbout(t, canvas, b, o) && t.scale > 0.0
    ensures AllDrawnInside(seats, t, canvas, o.padding)
            <==> SpansFit(b, t.scale, DrawnShift(t, b, o), Area(canvas, o))
  {
    var shift := Turned(DrawnShift(t, b, o), t.flippedY);
    AllReachIff(seats, b, t.scale, shift, Area(canvas, o));
    forall s | s in seats
      ensures DrawnInside(s, t, canvas, o.padding) <==> SeatReaches(s, b, t.scale, shift, Area(canvas, o))
    {
      DrawnAxes(s, t, canvas, b, o);
    }
    TurningFits(b, t.scale, DrawnShift(t, b, o), t.flippedY, Area(canvas, o));
  }

  lemma TurningFits(b: Box, scale: real, shift: Shift, flip: bool, area: Size)
    ensures SpansFit(b, scale, Turned(shift, flip), area) <==> SpansFit(b, scale, shift, area)
  {}

  /**
   The exact law of the intended mapping, for every clamp, every scale limit and every fine-tuning: all seats land
   inside the padded canvas iff both scaled spans of the seats fit into it, with the fine-tuning on either side.
   */
  lemma SeatsLandInsideIff(seats: seq<Seat>, world: Option<Size>, canvas: Size, o: Settings)
    requires Plain(seats, canvas, o)
    ensures AllInside(seats, Compute(seats, world, canvas, o).value, canvas, o.padding)
            <==> SpansFit(SeatBox(seats), ClampScale(Fit(seats, world, canvas, o), o), MeantShift(o), Area(canvas, o))
  {
    var t := PlainTransform(seats, world, canvas, o);
    MeantIffFits(seats, t, canvas, SeatBox(seats), o);
  }

  /** The exact law of what is drawn: the same with the drawn shift, so with room for the scaled corner of the box. */
  lemma SeatsDrawnInsideIff(seats: seq<Seat>, world: Option<Size>, canvas: Size, o: Settings)
    requires Plain(seats, canvas, o)
    ensures var t, b := Compute(seats, world, canvas, o).value, SeatBox(seats);
            && t.scale == ClampScale(Fit(seats, world, canvas, o), o) && t.box == UsedBox(seats, world, o)
            && (AllDrawnInside(seats, t, canvas, o.padding)
                <==> SpansFit(b, t.scale, DrawnShift(t, b, o), Area(canvas, o)))
  {
    var t := PlainTransform(seats, world, canvas, o);
    DrawnIffFits(seats, t, canvas, SeatBox(seats), o);
  }

  // ----------------------------------------------------- what the scale does

  function NoShift(): Shift { Shift(0.0, 0.0) }

  /** The scale respects both axes of the box it is computed from, unless it was raised to its lower limit. */
  lemma ScaleFits(box: Box, area: Size, o: Settings)
    requires area.width > 0.0 && area.height > 0.0 && box.Width() >= 0.0 && box.Height() >= 0.0
    requires 0.0 < o.minScale <= o.maxScale && o.minScale <= FitScale(box, area)
    ensures var s := ClampScale(FitScale(box, area), o);
            s > 0.0 && SpansFit(box, s, NoShift(), area)
  {
    var s := ClampScale(FitScale(box, area), o);
    RatioFits(s, area.width, box.Width());
    RatioFits(s, area.height, box.Height());
  }

  lemma SmallerFits(b: Box, used: Box, area: Size, scale: real)
    requires b.Width() <= used.Width() && b.Height() <= used.Height() && scale >= 0.0
    requires SpansFit(used, scale, NoShift(), area)
    ensures SpansFit(b, scale, NoShift(), area)
  {
    MulMonotone(b.Width(), used.Width(), scale);
    MulMonotone(b.Height(), used.Height(), scale);
  }

  lemma NotRaisedFits(b: Box, used: Box, area: Size, o: Settings)
    requires 0.0 <= b.Width() <= used.Width() && 0.0 <= b.Height() <= used.Height()
    requires area.width > 0.0 && area.height > 0.0
    requires 0.0 < o.minScale <= o.maxScale && o.minScale <= FitScale(used, area)
    ensures SpansFit(b, ClampScale(FitScale(used, area), o), NoShift(), area)
  {
    ScaleFits(used, area, o);
    SmallerFits(b, used, area, ClampScale(FitScale(used, area), o));
  }

  /**
   Without fine-tuning, every seat is meant inside unless the scale was raised, or computed from a box smaller than
   the seats' own.
   */
  lemma SeatsLandInside(seats: seq<Seat>, world: Option<Size>, canvas: Size, o: Settings)
    requires Plain(seats, canvas, o) && o.centeringOffsetX == 0.0 && Fit(seats, world, canvas, o) >= o.minScale
    requires UsedBox(seats, world, o).Width() >= SeatBox(seats).Width()
    requires UsedBox(seats, world, o).Height() >= SeatBox(seats).Height()
    ensures AllInside(seats, Compute(seats, world, canvas, o).value, canvas, o.padding)
  {
    SeatsInBox(seats, 0.0);
    assert Effective(canvas, o) == Area(canvas, o) && MeantShift(o) == NoShift();
    NotRaisedFits(SeatBox(seats), UsedBox(seats, world, o), Area(canvas, o), o);
    SeatsLandInsideIff(seats, world, canvas, o);
  }

  lemma RatioOverflows(scale: real, area: real, span: real)
    requires span >= 1.0 && scale > area / span
    ensures span * scale > area
  {
    DivideBack(area, span);
    assert (scale - area / span) * span > 0.0;
  }

  lemma RaisedOverflows(b: Box, area: Size, scale: real)
    requires b.Width() >= 1.0 && b.Height() >= 1.0 && scale > FitScale(b, area)
    ensures !SpansFit(b, scale, NoShift(), area)
  {
    if scale > area.width / b.Width() {
      RatioOverflows(scale, area.width, b.Width());
    } else {
      RatioOverflows(scale, area.height, b.Height());
    }
  }

  /**
   Seats at least one apart on both axes, no clamp at work and no fine-tuning: all are meant inside exactly when the
   scale was not raised.
   */
  lemma InsideIffNotRaised(seats: seq<Seat>, world: Option<Size>, canvas: Size, o: Settings)
    requires Regular(seats, world, canvas, o) && o.centeringOffsetX == 0.0
    requires SeatBox(seats).Width() >= 1.0 && SeatBox(seats).Height() >= 1.0
    ensures AllInside(seats, Compute(seats, world, canvas, o).value, canvas, o.padding)
            <==> Fit(seats, world, canvas, o) >= o.minScale
  {
    if Fit(seats, world, canvas, o) >= o.minScale {
      SeatsLandInside(seats, world, canvas, o);
    } else {
      assert UsedBox(seats, world, o) == SeatBox(seats) && Effective(canvas, o) == Area(canvas, o);
      assert MeantShift(o) == NoShift();
      RaisedOverflows(SeatBox(seats), Area(canvas, o), o.minScale);
      SeatsLandInsideIff(seats, world, canvas, o);
    }
  }

  // ------------------------------------------------------- touching the padding

  predicate FillsWidth(t: Transform, box: Box, canvas: Size, pad: real) {
    ScreenX(t, box.minX) == pad && ScreenX(t, box.maxX) == canvas.width - pad
  }

  predicate FillsHeight(t: Transform, box: Box, canvas: Size, pad: real) {
    ScreenY(t, box.minY) == pad && ScreenY(t, box.maxY) == canvas.height - pad
  }

  predicate DrawnFillsWidth(t: Transform, box: Box, canvas: Size, pad: real) {
    DrawnX(t, box.minX) == pad && DrawnX(t, box.maxX) == canvas.width - pad
  }

  lemma EndsTouch(lo: real, hi: real, scale: real, shift: real, length: real)
    ensures Run(lo, (lo + hi) / 2.0, scale) + shift == -length / 2.0
            && Run(hi, (lo + hi) / 2.0, scale) + shift == length / 2.0
            <==> (hi - lo) * scale == length && shift == 0.0
  {
    HalfSpan(lo, hi, scale);
  }

  predicate WidthFills(b: Box, scale: real, area: Size) { b.Width() * scale == area.width }

  predicate HeightFills(b: Box, scale: real, area: Size) { b.Height() * scale == area.height }

  lemma FillsAbout(t: Transform, canvas: Size, b: Box, o: Settings)
    requires ScalesAbout(t, canvas, b, o)
    ensures FillsWidth(t, b, canvas, o.padding)
            <==> WidthFills(b, t.scale, Area(canvas, o)) && o.centeringOffsetX == 0.0
    ensures FillsHeight(t, b, canvas, o.padding) <==> HeightFills(b, t.scale, Area(canvas, o))
  {
    PointAbout(t, canvas, b, o, b.minX, b.minY);
    PointAbout(t, canvas, b, o, b.maxX, b.maxY);
    EndsTouch(b.minX, b.maxX, t.scale, o.centeringOffsetX, Area(canvas, o).width);
    EndsTouch(b.minY, b.maxY, t.scale, 0.0, Area(canvas, o).height);
  }

  lemma DrawnFillsAbout(t: Transform, canvas: Size, b: Box, o: Settings)
    requires ScalesAbout(t, canvas, b, o)
    ensures DrawnFillsWidth(t, b, canvas, o.padding)
            <==> WidthFills(b, t.scale, Area(canvas, o)) && DrawnShift(t, b, o).x == 0.0
  {
    DrawnXAbout(t, canvas, b, o, b.minX);
    DrawnXAbout(t, canvas, b, o, b.maxX);
    EndsTouch(b.minX, b.maxX, t.scale, DrawnShift(t, b, o).x, Area(canvas, o).width);
  }

  /**
   An axis is meant to run from padded edge to padded edge exactly when its scaled span is the padded length and no
   fine-tuning moves it; it is drawn so when the drawn shift vanishes.
   */
  lemma FillsIff(seats: seq<Seat>, world: Option<Size>, canvas: Size, o: Settings)
    requires Plain(seats, canvas, o)
    ensures var t, b, area := Compute(seats, world, canvas, o).value, SeatBox(seats), Area(canvas, o);
            var scale := ClampScale(Fit(seats, world, canvas, o), o);
            && (FillsWidth(t, b, canvas, o.padding) <==> WidthFills(b, scale, area) && o.centeringOffsetX == 0.0)
            && (FillsHeight(t, b, canvas, o.padding) <==> HeightFills(b, scale, area))
            && (DrawnFillsWidth(t, b, canvas, o.padding)
                <==> WidthFills(b, scale, area) && DrawnShift(t, b, o).x == 0.0)
  {
    var t := PlainTransform(seats, world, canvas, o);
    FillsAbout(t, canvas, SeatBox(seats), o);
    DrawnFillsAbout(t, canvas, SeatBox(seats), o);
  }

  lemma FitTouches(b: Box, area: Size)
    requires b.Width() >= 1.0 && b.Height() >= 1.0
    ensures WidthFills(b, FitScale(b, area), area) || HeightFills(b, FitScale(b, area), area)
  {
    DivideBack(area.width, b.Width());
    DivideBack(area.height, b.Height());
  }

  /** Spans of at least one, no limit at work and no fine-tuning: some axis is meant to fill the padded canvas. */
  lemma SomeAxisFills(seats: seq<Seat>, world: Option<Size>, canvas: Size, o: Settings)
    requires Regular(seats, world, canvas, o) && o.centeringOffsetX == 0.0
    requires o.minScale <= Fit(seats, world, canvas, o) <= o.maxScale
    requires SeatBox(seats).Width() >= 1.0 && SeatBox(seats).Height() >= 1.0
    ensures var t, box := Compute(seats, world, canvas, o).value, SeatBox(seats);
            FillsWidth(t, box, canvas, o.padding) || FillsHeight(t, box, canvas, o.padding)
  {
    assert UsedBox(seats, world, o) == SeatBox(seats) && Effective(canvas, o) == Area(canvas, o);
    FitTouches(SeatBox(seats), Area(canvas, o));
    FillsIff(seats, world, canvas, o);
  }

  // ------------------------------------------------------- as the client calls it

  /** The settings of the one caller. */
  function ClientSettings(): Settings {
    Settings(Auto, Some(false), 0.0001, 10000.0, 1.0, true, 10.0, 6.0, 18.0, true, 15.0, true, true, -37.5)
  }

  /** With these settings, seats spread over both axes are scaled from their own box and never flipped. */
  lemma ClientTransform(seats: seq<Seat>, world: Size, canvas: Size) returns (t: Transform)
    requires seats != [] && canvas.width >= 31.0 && canvas.height >= 31.0
    requires SeatBox(seats).Width() > 0.0 && SeatBox(seats).Height() > 0.0
    ensures Compute(seats, Some(world), canvas, ClientSettings()) == Some(t)
    ensures t.box == SeatBox(seats) && !t.flippedY && t.scale > 0.0
    ensures t.scale == ClampScale(FitScale(SeatBox(seats), Area(canvas, ClientSettings())), ClientSettings())
    ensures ScalesAbout(t, canvas, SeatBox(seats), ClientSettings())
  {
    var o := ClientSettings();
    t := PlainTransform(seats, Some(world), canvas, o);
    assert UsedBox(seats, Some(world), o) == SeatBox(seats) && Effective(canvas, o) == Area(canvas, o);
  }

  /** The leftmost seat, scaled, is where the caller's fine-tuning expects it. */
  predicate LeftmostFits(b: Box, scale: real) { b.minX * scale == 37.5 }

  lemma ClientCancels(t: Transform, canvas: Size, b: Box)
    requires ScalesAbout(t, canvas, b, ClientSettings()) && t.scale > 0.0 && t.box == b && !t.flippedY
    ensures DrawnCentredX(t, b, canvas) <==> LeftmostFits(b, t.scale)
    ensures DrawnCentredY(t, b, canvas) <==> b.minY == 0.0
  {
    var o := ClientSettings();
    CentredWhenCancelled(t, canvas, b, o);
    var corner := b.minX * t.scale;
    assert o.centeringOffsetX == -37.5;
    assert CornerCancels(t, o) <==> corner == -o.centeringOffsetX;
    assert LeftmostFits(b, t.scale) <==> corner == 37.5;
  }

  /**
   Under the caller's settings the fine-tuning is right for exactly one position of the seats: they are drawn centred
   from left to right iff the leftmost of them, scaled, is at 37.5, and from top to bottom iff the topmost is at 0.
   */
  lemma ClientCentredIff(seats: seq<Seat>, world: Size, canvas: Size)
    requires seats != [] && canvas.width >= 31.0 && canvas.height >= 31.0
    requires SeatBox(seats).Width() > 0.0 && SeatBox(seats).Height() > 0.0
    ensures var t, b := Compute(seats, Some(world), canvas, ClientSettings()).value, SeatBox(seats);
            && (DrawnCentredX(t, b, canvas) <==> LeftmostFits(b, t.scale))
            && (DrawnCentredY(t, b, canvas) <==> b.minY == 0.0)
  {
    var t := ClientTransform(seats, world, canvas);
    ClientCancels(t, canvas, SeatBox(seats));
  }

  /** Two seats, moved right by five as the seed does, on a canvas of 130 by 130: the right one is drawn outside. */
  lemma RightSeatIsCutOff(seats: seq<Seat>, world: Size, canvas: Size) returns (t: Transform)
    requires seats == [Seat(5.0, 0.0), Seat(15.0, 10.0)] && canvas == Size(130.0, 130.0)
    ensures Compute(seats, Some(world), canvas, ClientSettings()) == Some(t)
    ensures !DrawnCentredX(t, SeatBox(seats), canvas) && !DrawnInside(seats[1], t, canvas, 15.0)
  {
    TwoSeatBox(seats);
    t := ClientTransform(seats, world, canvas);
    TenFold(ClientSettings());
    assert Area(canvas, ClientSettings()) == Size(100.0, 100.0);
    CutOff(t, canvas, SeatBox(seats));
  }

  lemma TenFold(o: Settings)
    requires o == ClientSettings()
    ensures ClampScale(FitScale(Box(5.0, 15.0, 0.0, 10.0), Size(100.0, 100.0)), o) == 10.0
  {
    DivideBack(100.0, 10.0);
  }

  lemma CutOff(t: Transform, canvas: Size, b: Box)
    requires ScalesAbout(t, canvas, b, ClientSettings()) && t.scale == 10.0
    requires t.box == b == Box(5.0, 15.0, 0.0, 10.0) && canvas == Size(130.0, 130.0)
    ensures !DrawnCentredX(t, b, canvas) && !DrawnInside(Seat(15.0, 10.0), t, canvas, 15.0)
  {
    DrawnXAbout(t, canvas, b, ClientSettings(), 15.0);
    DrawnXAbout(t, canvas, b, ClientSettings(), 10.0);
  }

  lemma TwoSeatBox(seats: seq<Seat>)
    requires seats == [Seat(5.0, 0.0), Seat(15.0, 10.0)]
    ensures SeatBox(seats) == Box(5.0, 15.0, 0.0, 10.0)
  {
    LeastIsLeast(Xs(seats));
    GreatestIsGreatest(Xs(seats));
    LeastIsLeast(Ys(seats));
    GreatestIsGreatest(Ys(seats));
    assert Xs(seats) == [5.0, 15.0] && Ys(seats) == [0.0, 10.0];
  }
}
