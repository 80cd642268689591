/** What an element's `drawShape` computes before it calls the canvas: the size of
    a polygon's box, the shift that centres a resized drawing, the default anchor it
    writes back, the sprite frame shown at a step and the tiles a repeated sprite is
    painted at; and how the routine ends. The canvas calls themselves are not
    modelled. */
module Drawing {
  import opened JsObject
  import opened JsValues

  /** A number as this arithmetic sees it; None is NaN. */
  type Number = Option<real>

  function Add(a: Number, b: Number): Number {
    if a.Some? && b.Some? then Some(a.value + b.value) else None
  }

  function Sub(a: Number, b: Number): Number {
    if a.Some? && b.Some? then Some(a.value - b.value) else None
  }

  function Mul(a: Number, b: Number): Number {
    if a.Some? && b.Some? then Some(a.value * b.value) else None
  }

  function Half(a: Number): Number {
    if a.Some? then Some(a.value / 2.0) else None
  }

  /** The value a number is stored as. */
  function NumValue(n: Number): Value {
    if n.Some? then Num(n.value) else NaN
  }

  /** `Math.max(a, b)`: NaN when either is. */
  function Max(a: Number, b: Number): (m: Number)
    ensures m.Some? <==> a.Some? && b.Some?
    ensures m.Some? ==> m.value >= a.value && m.value >= b.value
    ensures m.Some? ==> m.value == a.value || m.value == b.value
  {
    if a.None? || b.None? then None else if a.value >= b.value then a else b
  }

  /** `Math.min(a, b)`: NaN when either is. */
  function Min(a: Number, b: Number): (m: Number)
    ensures m.Some? <==> a.Some? && b.Some?
    ensures m.Some? ==> m.value <= a.value && m.value <= b.value
    ensures m.Some? ==> m.value == a.value || m.value == b.value
  {
    if a.None? || b.None? then None else if a.value <= b.value then a else b
  }

  /** `v || fallback` where the result is used as a number. */
  function OrNumber(v: Value, fallback: Number): Number {
    if Truthy(v) then ToNumber(v) else fallback
  }

  // ------------------------------------------------------------ bounding box

  /** The running `Math.max` of the box loop, as a left fold. */
  function MaxAll(start: Number, coords: seq<Number>): Number
    decreases |coords|
  {
    if coords == [] then start else Max(MaxAll(start, coords[..|coords| - 1]), coords[|coords| - 1])
  }

  /** The fold is NaN as soon as one coordinate is; otherwise it is the largest of the
      start and the coordinates. */
  lemma {:induction false} MaxAllIsMaximum(start: Number, coords: seq<Number>)
    ensures MaxAll(start, coords).Some? <==> start.Some? && forall i :: 0 <= i < |coords| ==> coords[i].Some?
    ensures MaxAll(start, coords).Some? ==> MaxAll(start, coords).value >= start.value
    ensures MaxAll(start, coords).Some? ==>
      forall i :: 0 <= i < |coords| ==> coords[i].Some? && MaxAll(start, coords).value >= coords[i].value
    ensures MaxAll(start, coords).Some? ==>
      MaxAll(start, coords).value == start.value
      || exists i :: 0 <= i < |coords| && coords[i] == MaxAll(start, coords)
    decreases |coords|
  {
    if coords != [] {
      var init := coords[..|coords| - 1];
      MaxAllIsMaximum(start, init);
      assert forall i :: 0 <= i < |init| ==> init[i] == coords[i];
      var m := MaxAll(start, coords);
      if m.Some? && m.value != start.value && m != coords[|coords| - 1] {
        var j :| 0 <= j < |init| && init[j] == MaxAll(start, init);
        assert coords[j] == m;
      }
    }
  }

  /** A point's coordinate `shape[i][k]` as `Math.max` converts it. */
  function Coords(points: seq<Value>, k: string): (cs: seq<Number>)
    ensures |cs| == |points|
    ensures forall i :: 0 <= i < |points| ==> cs[i] == ToNumber(Prop(points[i], k))
  {
    seq(|points|, i requires 0 <= i < |points| => ToNumber(Prop(points[i], k)))
  }

  /** Every point can be indexed: reading `shape[i][0]` of `undefined` or `null` throws. */
  predicate PointsReadable(points: seq<Value>) {
    forall i :: 0 <= i < |points| ==> !points[i].Undef? && !points[i].Null?
  }

  /** The element's extent `EW`, `EH` as the drawing code uses it. */
  datatype Box = Box(ew: Number, eh: Number)

  /** Lines 1277-1286: a polygon drawn on an element without a width or without a
      height widens the box to its points, starting from `w || 0` and `h || 0`;
      otherwise the box is the element's own `w` and `h`. None: a point throws. */
  function BoxSpec(w: Value, h: Value, shape: Value): Option<Box> {
    if shape.Arr? && (!Truthy(w) || !Truthy(h)) then
      if PointsReadable(shape.items) then
        Some(Box(MaxAll(OrNumber(w, Some(0.0)), Coords(shape.items, "0")),
                 MaxAll(OrNumber(h, Some(0.0)), Coords(shape.items, "1"))))
      else None
    else Some(Box(ToNumber(w), ToNumber(h)))
  }

  /** The loop of lines 1280-1285. */
  method BoundingBox(w: Value, h: Value, shape: Value) returns (r: Option<Box>)
    ensures r == BoxSpec(w, h, shape)
  {
    if !(shape.Arr? && (!Truthy(w) || !Truthy(h))) {
      return Some(Box(ToNumber(w), ToNumber(h)));
    }
    r := FoldPoints(shape.items, OrNumber(w, Some(0.0)), OrNumber(h, Some(0.0)));
  }

  /** The loop itself: `EW = Math.max(EW, shape[i][0])`, likewise for `EH`. */
  method FoldPoints(points: seq<Value>, ew0: Number, eh0: Number) returns (r: Option<Box>)
    ensures r == if PointsReadable(points)
                 then Some(Box(MaxAll(ew0, Coords(points, "0")), MaxAll(eh0, Coords(points, "1"))))
                 else None
  {
    var ew, eh := ew0, eh0;
    var i := 0;
    while i < |points|
      invariant 0 <= i <= |points|
      invariant PointsReadable(points[..i])
      invariant ew == MaxAll(ew0, Coords(points[..i], "0"))
      invariant eh == MaxAll(eh0, Coords(points[..i], "1"))
    {
      var p := points[i];
      if p.Undef? || p.Null? {
        assert !PointsReadable(points) by {
          assert points[i].Undef? || points[i].Null?;
        }
        return None;
      }
      FoldStep(ew0, points, i, "0");
      FoldStep(eh0, points, i, "1");
      ReadableStep(points, i);
      ew := Max(ew, ToNumber(Prop(p, "0")));
      eh := Max(eh, ToNumber(Prop(p, "1")));
      i := i + 1;
    }
    assert points[..i] == points;
    r := Some(Box(ew, eh));
  }

  /** One more point extends the fold by that point's coordinate. */
  lemma FoldStep(start: Number, points: seq<Value>, i: nat, k: string)
    requires i < |points|
    ensures MaxAll(start, Coords(points[..i + 1], k))
            == Max(MaxAll(start, Coords(points[..i], k)), ToNumber(Prop(points[i], k)))
  {
    var cs := Coords(points[..i + 1], k);
    assert cs[..i] == Coords(points[..i], k);
  }

  lemma ReadableStep(points: seq<Value>, i: nat)
    requires i < |points| && PointsReadable(points[..i])
    requires !points[i].Undef? && !points[i].Null?
    ensures PointsReadable(points[..i + 1])
  {
    assert forall j :: 0 <= j < i ==> points[..i + 1][j] == points[..i][j];
  }

  /** A polygon drawn on an element with neither size is as large as its furthest
      point, and at least 0; one coordinate that is not a number makes it NaN. */
  lemma PolygonBoxReachesPoints(shape: seq<Value>)
    requires PointsReadable(shape)
    ensures BoxSpec(Undef, Undef, Arr(shape)).Some?
    ensures var ew := BoxSpec(Undef, Undef, Arr(shape)).value.ew;
      ew.None? <==> exists i :: 0 <= i < |shape| && ToNumber(Prop(shape[i], "0")).None?
    ensures var ew := BoxSpec(Undef, Undef, Arr(shape)).value.ew;
      ew.Some? ==> ew.value >= 0.0
    ensures var ew := BoxSpec(Undef, Undef, Arr(shape)).value.ew;
      forall i :: 0 <= i < |shape| && ew.Some? ==>
        ToNumber(Prop(shape[i], "0")).Some? && ew.value >= ToNumber(Prop(shape[i], "0")).value
  {
    var cs := Coords(shape, "0");
    MaxAllIsMaximum(Some(0.0), cs);
  }

  // ------------------------------------------------------------ offsets

  /** `drawing.offsetX || 0` */
  function Offset(drawing: Value, k: string): Number {
    OrNumber(Prop(drawing, k), Some(0.0))
  }

  /** `FW = drawing.w || EW` */
  function FinalSize(drawing: Value, k: string, e: Number): Number {
    OrNumber(Prop(drawing, k), e)
  }

  /** Lines 1350-1353 along one axis: `offset - (F - E) / 2`. */
  function Shift(offset: Number, f: Number, e: Number): Number {
    Sub(offset, Half(Sub(f, e)))
  }

  /** The drawing's own box of size F, translated by the shift, has the same centre
      as the element's box of size E moved by the offset. */
  lemma ShiftCentres(offset: real, f: real, e: real)
    ensures Shift(Some(offset), Some(f), Some(e)).Some?
    ensures Shift(Some(offset), Some(f), Some(e)).value + f / 2.0 == offset + e / 2.0
  {
  }

  /** A drawing of the element's own size is only moved by its offset, and any NaN
      among the inputs makes the shift NaN. */
  lemma ShiftOfUnresized(offset: Number, e: Number, f: Number)
    ensures e.Some? ==> Shift(offset, e, e) == offset
    ensures offset.None? || f.None? || e.None? ==> Shift(offset, f, e).None?
  {
  }

  /** Lines 1313-1318: the anchor written back when a rotated element has none. */
  function DefaultAnchor(box: Box): Value {
    Obj([("x", NumValue(Half(box.ew))), ("y", NumValue(Half(box.eh)))])
  }

  // ------------------------------------------------------------ sprite frames

  /** The integer part of a number, toward zero. */
  function Trunc(r: real): int {
    if r >= 0.0 then r.Floor else -((-r).Floor)
  }

  function Abs(r: real): real {
    if r >= 0.0 then r else -r
  }

  /** Whether `String(q)` is plain decimal: zero, or at least 1e-6 and below 1e21 in
      size. Any other number is written with an exponent, as `5e-7` or `1.5e+21`. */
  predicate PlainText(q: real) {
    q == 0.0 || (0.000001 <= Abs(q) < 1000000000000000000000.0)
  }

  /** The first significant digit of a positive number. */
  function LeadingDigit(x: real): (d: int)
    requires x > 0.0
    ensures 1 <= d <= 9
    decreases if x >= 10.0 then x.Floor else if x < 1.0 then (1.0 / x).Floor + 1 else 0
  {
    if x >= 10.0 then LeadingDigit(x / 10.0)
    else if x < 1.0 then
      ReciprocalShrinks(x);
      LeadingDigit(x * 10.0)
    else x.Floor
  }

  /** Scaling a number below 0.1 by ten lowers its reciprocal's integer part. */
  lemma ReciprocalShrinks(x: real)
    requires 0.0 < x < 1.0
    ensures x * 10.0 < 1.0 ==> (1.0 / (x * 10.0)).Floor < (1.0 / x).Floor
  {
    if x * 10.0 < 1.0 {
      var y := 1.0 / x;
      assert y > 10.0 by {
        assert x * y == 1.0;
      }
      assert 1.0 / (x * 10.0) == y / 10.0;
      assert (y / 10.0).Floor as real <= y / 10.0 <= y - 9.0 < y.Floor as real;
    }
  }

  /** `parseInt(q)`, which reads the text of `q`: its integer part, toward zero, when
      the text is plain decimal; otherwise `parseInt` stops at the point or the `e`
      of the exponent form and reads only the first significant digit. */
  function ParseIntOf(q: real): int {
    if PlainText(q) then Trunc(q)
    else if q > 0.0 then LeadingDigit(q)
    else -LeadingDigit(-q)
  }

  /** `n % d` on numbers: the remainder takes the sign of the dividend. */
  function Rem(n: real, d: real): real
    requires d != 0.0
  {
    n - d * (Trunc(n / d) as real)
  }

  /** Lines 1570-1576: `parseInt(CC.step / delay) % frames`, the index of the frame
      shown; NaN when the delay is zero or NaN (the quotient is not finite) and when
      the frame count is zero or NaN. */
  function FrameIndex(step: nat, delay: Number, frames: Number): Number {
    if delay.None? || delay.value == 0.0 || frames.None? || frames.value == 0.0 then None
    else Some(Rem(ParseIntOf(step as real / delay.value) as real, frames.value))
  }

  lemma FloorOfQuotient(n: nat, d: nat)
    requires d > 0
    ensures (n as real / d as real).Floor == n / d
  {
    var q, r := n / d, n % d;
    assert n == q * d + r;
    assert n as real == (q as real) * (d as real) + r as real;
    assert n as real / d as real == q as real + r as real / d as real;
    assert 0.0 <= r as real / d as real < 1.0;
  }

  /** The integer part of a quotient of whole numbers is their integer quotient. */
  lemma TruncWhole(n: nat, d: nat)
    requires d > 0
    ensures Trunc(n as real / d as real) == n / d
  {
    FloorOfQuotient(n, d);
    assert n as real / d as real >= 0.0;
  }

  /** `parseInt` of a non-negative number is a non-negative integer. */
  lemma ParseIntNonNegative(q: real)
    requires q >= 0.0
    ensures ParseIntOf(q) >= 0
  {
  }

  /** A sign in front of the text is read as a sign. */
  lemma ParseIntOdd(q: real)
    ensures ParseIntOf(-q) == -ParseIntOf(q)
  {
    assert Abs(-q) == Abs(q);
  }

  /** `%` on whole numbers is the integer remainder. */
  lemma RemWhole(q: nat, f: nat)
    requires f > 0
    ensures Rem(q as real, f as real) == (q % f) as real
  {
    TruncWhole(q, f);
    var t := q / f;
    assert q == t * f + q % f;
    assert q as real == (t * f) as real + (q % f) as real;
    assert (t * f) as real == t as real * f as real;
  }

  /** With a positive whole delay and frame count, the frame shown is the number of
      whole delays elapsed, modulo the frame count, as long as the quotient of the
      step by the delay is written in plain decimal. */
  lemma FrameIndexCounts(step: nat, delay: nat, frames: nat)
    requires delay > 0 && frames > 0 && PlainText(step as real / delay as real)
    ensures FrameIndex(step, Some(delay as real), Some(frames as real)) == Some(((step / delay) % frames) as real)
  {
    TruncWhole(step, delay);
    RemWhole(step / delay, frames);
  }

  /** A quotient below 1e-6 is written with an exponent, so the frame shown is its
      first significant digit modulo the frame count, not frame 0: the number of
      whole delays elapsed, 0, is not what is shown. */
  lemma TinyQuotientShowsDigit(step: nat, delay: nat, frames: nat)
    requires delay > 0 && frames > 0 && step > 0 && !PlainText(step as real / delay as real)
    requires step < delay
    ensures step / delay == 0
    ensures var d := LeadingDigit(step as real / delay as real);
      FrameIndex(step, Some(delay as real), Some(frames as real)) == Some((d % frames) as real) && 1 <= d <= 9
  {
    var q := step as real / delay as real;
    assert 0.0 < q < 1.0 by {
      FloorOfQuotient(step, delay);
      assert step as real < delay as real;
    }
    RemWhole(LeadingDigit(q), frames);
  }

  /** Example: at step 1 with a delay of 2000000 the quotient is `5e-7`, and the frame
      shown is 5 (of 8), where the whole delays elapsed are none. */
  lemma TinyQuotientExample()
    ensures FrameIndex(1, Some(2000000.0), Some(8.0)) == Some(5.0)
  {
    var q := 1.0 / 2000000.0;
    assert q == 0.0000005 && !PlainText(q);
    assert LeadingDigit(0.0000005) == LeadingDigit(0.000005) == LeadingDigit(0.00005)
        == LeadingDigit(0.0005) == LeadingDigit(0.005) == LeadingDigit(0.05)
        == LeadingDigit(0.5) == LeadingDigit(5.0) == 5;
    RemWhole(5, 8);
  }

  /** Euclidean division is determined by quotient and remainder. */
  lemma DivUnique(n: nat, d: nat, q: nat, r: nat)
    requires d > 0 && n == q * d + r && r < d
    ensures n / d == q
  {
    FloorOfQuotient(n, d);
    assert n as real == (q as real) * (d as real) + r as real;
    assert n as real / d as real == q as real + r as real / d as real;
    assert 0.0 <= r as real / d as real < 1.0;
  }

  /** So the index is a whole number in range, whatever the quotient's text. */
  lemma FrameIndexInRange(step: nat, delay: nat, frames: nat)
    requires delay > 0 && frames > 0
    ensures var k := FrameIndex(step, Some(delay as real), Some(frames as real));
      k.Some? && 0.0 <= k.value < frames as real && k.value == k.value.Floor as real
  {
    var q := step as real / delay as real;
    ParseIntNonNegative(q);
    RemWhole(ParseIntOf(q), frames);
  }

  /** The animation repeats every `delay * frames` steps, where both quotients are
      written in plain decimal. */
  lemma FrameIndexPeriodic(step: nat, delay: nat, frames: nat)
    requires delay > 0 && frames > 0
    requires PlainText(step as real / delay as real) && PlainText((step + delay * frames) as real / delay as real)
    ensures FrameIndex(step + delay * frames, Some(delay as real), Some(frames as real))
            == FrameIndex(step, Some(delay as real), Some(frames as real))
  {
    FrameIndexCounts(step, delay, frames);
    FrameIndexCounts(step + delay * frames, delay, frames);
    CountPeriodic(step, delay, frames);
  }

  /** A whole period later, the count of whole delays modulo the frame count is the
      same. */
  lemma CountPeriodic(step: nat, delay: nat, frames: nat)
    requires delay > 0 && frames > 0
    ensures ((step + delay * frames) / delay) % frames == (step / delay) % frames
  {
    ShiftQuotient(step, delay, frames);
    ShiftRemainder(step / delay, frames);
  }

  /** Adding `k` whole divisors adds `k` to the quotient. */
  lemma ShiftQuotient(a: nat, d: nat, k: nat)
    requires d > 0
    ensures (a + d * k) / d == a / d + k
  {
    var q, r := a / d, a % d;
    assert a + d * k == (q + k) * d + r;
    DivUnique(a + d * k, d, q + k, r);
  }

  /** Adding the divisor leaves the remainder as it is. */
  lemma ShiftRemainder(q: nat, k: nat)
    requires k > 0
    ensures (q + k) % k == q % k
  {
    ShiftQuotient(q, k, 1);
    assert q + k == (q + k) / k * k + (q + k) % k;
    assert q == q / k * k + q % k;
  }

  /** A frame stays on screen for `delay` steps: every step of a block of `delay`
      steps shows the frame of the block's first step, where both quotients are
      written in plain decimal. */
  lemma FrameIndexHolds(step: nat, delay: nat, frames: nat)
    requires delay > 0 && frames > 0
    requires PlainText(step as real / delay as real) && PlainText((step - step % delay) as real / delay as real)
    ensures FrameIndex(step - step % delay, Some(delay as real), Some(frames as real))
            == FrameIndex(step, Some(delay as real), Some(frames as real))
  {
    var q := step / delay;
    var start := step - step % delay;
    assert start == q * delay + 0;
    DivUnique(start, delay, q, 0);
    FrameIndexCounts(step, delay, frames);
    FrameIndexCounts(start, delay, frames);
  }

  /** A negative delay counts the frames backwards from zero: the index is never
      positive. */
  lemma NegativeDelayIndex(step: nat, delay: nat, frames: nat)
    requires delay > 0 && frames > 0
    ensures var k := FrameIndex(step, Some(-(delay as real)), Some(frames as real));
      k.Some? && -(frames as real) < k.value <= 0.0
  {
    var q := step as real / delay as real;
    assert step as real / -(delay as real) == -q;
    ParseIntOdd(q);
    ParseIntNonNegative(q);
    var m: nat := ParseIntOf(q);
    assert ParseIntOf(-q) as real == -(m as real);
    RemNegated(m, frames);
  }

  /** `%` of a negated whole number is the negated integer remainder. */
  lemma RemNegated(m: nat, f: nat)
    requires f > 0
    ensures Rem(-(m as real), f as real) == -((m % f) as real)
  {
    FloorOfQuotient(m, f);
    assert -(m as real) / f as real == -(m as real / f as real);
    assert Trunc(-(m as real) / f as real) == -(m / f);
    assert m == (m / f) * f + m % f;
    assert (m as real) == ((m / f) as real) * (f as real) + (m % f) as real;
  }

  // ------------------------------------------------------------ sprite tiles

  /** The condition of a tiling do-while, after `start += size` when repeating. */
  predicate Continues(x: real, size: Number, bound: Number, repeat: bool) {
    repeat && size.Some? && bound.Some? && x + size.value < bound.value
  }

  /** The do-while along one axis ends: repeating with a size that does not advance
      while still below the bound would loop forever. */
  predicate Ends(size: Number, bound: Number, repeat: bool) {
    !(repeat && size.Some? && bound.Some? && size.value <= 0.0 && size.value < bound.value)
  }

  /** One step of a tiling loop uses up one size of the distance left. */
  lemma QuotientStep(e: real, x: real, s: real)
    requires s > 0.0
    ensures (e - (x + s)) / s == (e - x) / s - 1.0
  {
    assert (e - (x + s)) / s == (e - x) / s - s / s;
  }

  /** The start positions one tiling loop draws at, from `x` on. */
  function Starts(x: real, size: Number, bound: Number, repeat: bool): (xs: seq<real>)
    requires size.Some? && size.value <= 0.0 ==> !Continues(x, size, bound, repeat)
    ensures |xs| >= 1 && xs[0] == x
    decreases if size.Some? && bound.Some? && size.value > 0.0 && x < bound.value
              then ((bound.value - x) / size.value).Floor + 1 else 0
  {
    if Continues(x, size, bound, repeat) then
      var s, e := size.value, bound.value;
      QuotientStep(e, x, s);
      [x] + Starts(x + s, size, bound, repeat)
    else [x]
  }

  /** The positions advance by the sprite's size from the start. */
  lemma {:induction false} StartsAdvance(x: real, size: Number, bound: Number, repeat: bool)
    requires size.Some? && size.value <= 0.0 ==> !Continues(x, size, bound, repeat)
    ensures var xs := Starts(x, size, bound, repeat);
      |xs| > 1 ==> size.Some? && forall i :: 0 <= i < |xs| ==> xs[i] == x + (i as real) * size.value
    decreases if size.Some? && bound.Some? && size.value > 0.0 && x < bound.value
              then ((bound.value - x) / size.value).Floor + 1 else 0
  {
    if Continues(x, size, bound, repeat) {
      var s, e := size.value, bound.value;
      QuotientStep(e, x, s);
      StartsAdvance(x + s, size, bound, repeat);
      var xs := Starts(x, size, bound, repeat);
      var rest := Starts(x + s, size, bound, repeat);
      assert xs == [x] + rest;
      forall i | 0 <= i < |xs| ensures xs[i] == x + (i as real) * s {
        if i > 0 {
          assert xs[i] == rest[i - 1];
          ArithmeticStep(x, s, i);
        }
      }
    }
  }

  lemma ArithmeticStep(x: real, s: real, i: nat)
    requires i > 0
    ensures x + s + ((i - 1) as real) * s == x + (i as real) * s
  {
  }

  /** Every position after the first lies below the bound. */
  lemma {:induction false} StartsBelowBound(x: real, size: Number, bound: Number, repeat: bool)
    requires size.Some? && size.value <= 0.0 ==> !Continues(x, size, bound, repeat)
    ensures forall i :: 1 <= i < |Starts(x, size, bound, repeat)| ==>
      bound.Some? && Starts(x, size, bound, repeat)[i] < bound.value
    decreases if size.Some? && bound.Some? && size.value > 0.0 && x < bound.value
              then ((bound.value - x) / size.value).Floor + 1 else 0
  {
    if Continues(x, size, bound, repeat) {
      var s, e := size.value, bound.value;
      QuotientStep(e, x, s);
      StartsBelowBound(x + s, size, bound, repeat);
      var xs := Starts(x, size, bound, repeat);
      var rest := Starts(x + s, size, bound, repeat);
      assert xs == [x] + rest;
      assert rest[0] == x + s;
      forall i | 1 <= i < |xs| ensures xs[i] < e {
        assert xs[i] == rest[i - 1];
      }
    } else {
      assert |Starts(x, size, bound, repeat)| == 1;
    }
  }

  /** When repeating with a positive size, the last tile reaches the bound; without
      repetition there is one tile. */
  lemma {:induction false} StartsReachBound(x: real, size: Number, bound: Number, repeat: bool)
    requires size.Some? && size.value <= 0.0 ==> !Continues(x, size, bound, repeat)
    ensures var xs := Starts(x, size, bound, repeat);
      repeat && size.Some? && bound.Some? && size.value > 0.0 ==> xs[|xs| - 1] + size.value >= bound.value
    ensures !repeat ==> Starts(x, size, bound, repeat) == [x]
    decreases if size.Some? && bound.Some? && size.value > 0.0 && x < bound.value
              then ((bound.value - x) / size.value).Floor + 1 else 0
  {
    if Continues(x, size, bound, repeat) {
      var s, e := size.value, bound.value;
      QuotientStep(e, x, s);
      StartsReachBound(x + s, size, bound, repeat);
      var xs := Starts(x, size, bound, repeat);
      var rest := Starts(x + s, size, bound, repeat);
      assert xs == [x] + rest;
      assert xs[|xs| - 1] == rest[|rest| - 1];
    }
  }

  /** One column of tiles at `x`. */
  function Column(x: real, ys: seq<real>): (c: seq<(real, real)>)
    ensures |c| == |ys| && forall j :: 0 <= j < |ys| ==> c[j] == (x, ys[j])
  {
    seq(|ys|, j requires 0 <= j < |ys| => (x, ys[j]))
  }

  /** The tiles of the nested do-while: column after column, each top to bottom. */
  function Grid(xs: seq<real>, ys: seq<real>): seq<(real, real)>
    decreases |xs|
  {
    if xs == [] then [] else Grid(xs[..|xs| - 1], ys) + Column(xs[|xs| - 1], ys)
  }

  /** The grid holds one tile per pair of positions. */
  lemma {:induction false} GridSize(xs: seq<real>, ys: seq<real>)
    ensures |Grid(xs, ys)| == |xs| * |ys|
    decreases |xs|
  {
    if xs != [] {
      GridSize(xs[..|xs| - 1], ys);
      assert |xs| * |ys| == (|xs| - 1) * |ys| + |ys|;
    }
  }

  /** Every pair of a column position and a row position is painted. */
  lemma {:induction false} GridHasEveryPair(xs: seq<real>, ys: seq<real>, i: nat, j: nat)
    requires i < |xs| && j < |ys|
    ensures (xs[i], ys[j]) in Grid(xs, ys)
    decreases |xs|
  {
    var init := xs[..|xs| - 1];
    var c := Column(xs[|xs| - 1], ys);
    assert Grid(xs, ys) == Grid(init, ys) + c;
    if i < |xs| - 1 {
      GridHasEveryPair(init, ys, i, j);
      assert xs[i] == init[i];
    } else {
      assert c[j] == (xs[i], ys[j]);
    }
  }

  /** Every painted tile pairs a column position with a row position. */
  lemma {:induction false} GridOnlyPairs(xs: seq<real>, ys: seq<real>, t: (real, real))
    requires t in Grid(xs, ys)
    ensures t.0 in xs && t.1 in ys
    decreases |xs|
  {
    var init := xs[..|xs| - 1];
    var c := Column(xs[|xs| - 1], ys);
    assert Grid(xs, ys) == Grid(init, ys) + c;
    if t in Grid(init, ys) {
      GridOnlyPairs(init, ys, t);
      assert t.0 in xs by { var k :| 0 <= k < |init| && init[k] == t.0; assert xs[k] == t.0; }
    } else {
      var j :| 0 <= j < |c| && c[j] == t;
      assert t.0 == xs[|xs| - 1];
    }
  }

  /** Lines 1579-1594: the positions `drawImage` paints the sprite at. Each loop
      tests its condition on the advanced position, so the model checks `Continues`
      before advancing; the position left after the last test is never used. */
  method Tiles(sw: Number, sh: Number, ew: Number, eh: Number, repeatX: bool, repeatY: bool)
    returns (tiles: seq<(real, real)>)
    requires Ends(sw, ew, repeatX) && Ends(sh, eh, repeatY)
    ensures tiles == Grid(Starts(0.0, sw, ew, repeatX), Starts(0.0, sh, eh, repeatY))
  {
    var xs := Starts(0.0, sw, ew, repeatX);
    var ys := Starts(0.0, sh, eh, repeatY);
    tiles := [];
    var startX := 0.0;
    ghost var xsDone: seq<real> := [];
    while true
      invariant sw.Some? && sw.value <= 0.0 ==> !Continues(startX, sw, ew, repeatX)
      invariant xs == xsDone + Starts(startX, sw, ew, repeatX)
      invariant tiles == Grid(xsDone, ys)
      decreases |Starts(startX, sw, ew, repeatX)|
    {
      tiles := PaintColumn(tiles, startX, sh, eh, repeatY);
      LoopRound(xs, xsDone, startX, sw, ew, repeatX);
      GridSnoc(xsDone, startX, ys);
      xsDone := xsDone + [startX];
      if !Continues(startX, sw, ew, repeatX) {
        break;
      }
      startX := startX + sw.value;
    }
  }

  /** The inner do-while: one column, top to bottom. */
  method PaintColumn(tiles0: seq<(real, real)>, startX: real, sh: Number, eh: Number, repeatY: bool)
    returns (tiles: seq<(real, real)>)
    requires Ends(sh, eh, repeatY)
    ensures tiles == tiles0 + Column(startX, Starts(0.0, sh, eh, repeatY))
  {
    var ys := Starts(0.0, sh, eh, repeatY);
    tiles := tiles0;
    var startY := 0.0;
    ghost var ysDone: seq<real> := [];
    while true
      invariant sh.Some? && sh.value <= 0.0 ==> !Continues(startY, sh, eh, repeatY)
      invariant ys == ysDone + Starts(startY, sh, eh, repeatY)
      invariant tiles == tiles0 + Column(startX, ysDone)
      decreases |Starts(startY, sh, eh, repeatY)|
    {
      ColumnSnoc(tiles0, tiles, startX, ysDone, startY);
      LoopRound(ys, ysDone, startY, sh, eh, repeatY);
      tiles := tiles + [(startX, startY)];
      ysDone := ysDone + [startY];
      if !Continues(startY, sh, eh, repeatY) {
        break;
      }
      startY := startY + sh.value;
    }
  }

  /** The bookkeeping of one round of a tiling loop: the position just painted joins
      those done; the loop goes on from the next position, which has fewer positions
      left, or stops with every position painted. */
  lemma LoopRound(all: seq<real>, done: seq<real>, x: real, size: Number, bound: Number, repeat: bool)
    requires size.Some? && size.value <= 0.0 ==> !Continues(x, size, bound, repeat)
    requires all == done + Starts(x, size, bound, repeat)
    ensures Continues(x, size, bound, repeat) ==>
      && all == (done + [x]) + Starts(x + size.value, size, bound, repeat)
      && |Starts(x + size.value, size, bound, repeat)| < |Starts(x, size, bound, repeat)|
    ensures !Continues(x, size, bound, repeat) ==> all == done + [x]
  {
    StartsUnfold(x, size, bound, repeat);
  }

  lemma ColumnSnoc(tiles0: seq<(real, real)>, tiles: seq<(real, real)>, x: real, ys: seq<real>, y: real)
    requires tiles == tiles0 + Column(x, ys)
    ensures tiles + [(x, y)] == tiles0 + Column(x, ys + [y])
  {
    assert Column(x, ys + [y]) == Column(x, ys) + [(x, y)];
  }

  /** One step of a tiling loop: the positions are the current one, then those from
      the next position on when the loop continues. */
  lemma StartsUnfold(x: real, size: Number, bound: Number, repeat: bool)
    requires size.Some? && size.value <= 0.0 ==> !Continues(x, size, bound, repeat)
    ensures Continues(x, size, bound, repeat) ==>
      Starts(x, size, bound, repeat) == [x] + Starts(x + size.value, size, bound, repeat)
    ensures !Continues(x, size, bound, repeat) ==> Starts(x, size, bound, repeat) == [x]
  {
  }

  lemma GridSnoc(xs: seq<real>, x: real, ys: seq<real>)
    ensures Grid(xs + [x], ys) == Grid(xs, ys) + Column(x, ys)
  {
    assert (xs + [x])[..|xs|] == xs;
  }

  // ------------------------------------------------------------ drawShape

  /** `v.indexOf(c) != -1` for the string or array the library expects; None: any
      other value has no `indexOf` and the call throws. */
  function Mentions(v: Value, c: char): Option<bool> {
    match v
    case Str(s) => Some(c in s)
    case Arr(items) => Some(Str([c]) in items)
    case _ => None
  }

  /** `x.flip && x.flip.length` guards `x.flip.indexOf(...)`. */
  predicate FlipThrows(flip: Value) {
    Truthy(flip) && Truthy(Prop(flip, "length")) && Mentions(flip, 'x').None?
  }

  /** Tracing a polygon reads `shape[0][0]` and every point. */
  predicate PolygonThrows(shape: Value) {
    shape.Arr? && (shape.items == [] || !PointsReadable(shape.items))
  }

  /** The outcome of a step that may throw. */
  datatype Attempt<T> = Ok(value: T) | Fails(halt: Halt)

  /** `style.color && CC.isString(style.color)` fails and `style.linearGradient` is
      truthy: the fill or stroke is painted with a gradient. */
  predicate UsesGradient(style: Value) {
    var color := Prop(style, "color");
    !(Truthy(color) && color.Str?) && Truthy(Prop(style, "linearGradient"))
  }

  const DefaultStart: Value := Arr([Num(0.0), Num(0.0)])
  const DefaultEnd: Value := Arr([Num(100.0), Num(0.0)])

  /** The writes of `createLinearGradient(g, FW, FH)` onto the gradient it is given:
      a falsy `start` becomes `[0, 0]` and a falsy `end` `[100, 0]`. Under strict
      mode a truthy primitive cannot take a property, so the write throws; a named
      property on an array or a function is not modelled. */
  function GradientDefaults(g: Value): Attempt<Value> {
    var start, end := Prop(g, "start"), Prop(g, "end");
    if Truthy(start) && Truthy(end) then Ok(g)
    else
      match g
      case Obj(fields) =>
        var f1 := if Truthy(start) then fields else Set(fields, "start", DefaultStart);
        Ok(Obj(if Truthy(end) then f1 else Set(f1, "end", DefaultEnd)))
      case Arr(_) => Fails(Unsupported)
      case Fn(_) => Fails(Unsupported)
      case _ => Fails(TypeErrorThrown)
  }

  /** The gradient step of `fill` or `stroke`: the gradient object as
      `createLinearGradient` leaves it, paired with the style's name, when the style
      uses one. */
  function StyleGradient(drawing: Value, style: string): Attempt<seq<(string, Value)>> {
    var st := Prop(drawing, style);
    if Truthy(st) && UsesGradient(st) then
      match GradientDefaults(Prop(st, "linearGradient"))
      case Ok(g) => Ok([(style, g)])
      case Fails(h) => Fails(h)
    else Ok([])
  }

  /** What the steps between the rotation and the sprite leave behind: the gradients
      they completed, and the exception that ended them, if any. */
  datatype Styled = Styled(gradients: seq<(string, Value)>, halt: Option<Halt>)

  /** The steps between the rotation and the sprite, in the order `drawShape` takes
      them: the two flips; the fill's gradient, then its shape (a circle reads the
      undeclared `W`; a polygon reads `shape[0][0]` and every point); the stroke's
      gradient, then its polygon; and the clip of a polygon before a sprite. */
  function ShapeHalt(el: Value, drawing: Value): Styled {
    var shape := Prop(drawing, "shape");
    var sprite := Prop(drawing, "sprite");
    if FlipThrows(Prop(el, "flip")) || FlipThrows(Prop(drawing, "flip")) then Styled([], Some(TypeErrorThrown))
    else
      match StyleGradient(drawing, "fill")
      case Fails(h) => Styled([], Some(h))
      case Ok(fg) =>
        if Truthy(Prop(drawing, "fill")) && StrictEquals(shape, Str("circle")) then Styled(fg, Some(ReferenceErrorThrown))
        else if Truthy(Prop(drawing, "fill")) && PolygonThrows(shape) then Styled(fg, Some(TypeErrorThrown))
        else
          match StyleGradient(drawing, "stroke")
          case Fails(h) => Styled(fg, Some(h))
          case Ok(sg) =>
            if Truthy(Prop(drawing, "stroke")) && PolygonThrows(shape) then Styled(fg + sg, Some(TypeErrorThrown))
            else if Truthy(sprite) && Truthy(Prop(sprite, "url")) && PolygonThrows(shape) then Styled(fg + sg, Some(TypeErrorThrown))
            else Styled(fg + sg, None)
  }


  /** `sprite.w || Math.min(FW, res.width)`: a given size is used as it is (the model
      follows numbers only, since a string would be concatenated by the frame
      arithmetic), otherwise the resource's size capped by the drawing's; reading
      the size of a missing resource throws. */
  function SpriteSize(given: Value, f: Number, res: Value, k: string): (r: Attempt<Number>)
    ensures Truthy(given) && given.Num? ==> r == Ok(Some(given.r))
    ensures !Truthy(given) && (res.Undef? || res.Null?) ==> r == Fails(TypeErrorThrown)
  {
    if Truthy(given) then (if given.Num? then Ok(Some(given.r)) else Fails(Unsupported))
    else if res.Undef? || res.Null? then Fails(TypeErrorThrown)
    else Ok(Min(f, ToNumber(Prop(res, k))))
  }

  /** The part of the image a sprite is cut from and how it repeats: the resource,
      the source corner `spriteX`, `spriteY`, the size `spriteW`, `spriteH`, and
      `repeatX`, `repeatY`. */
  datatype Cut = Cut(res: Value, sx: Number, sy: Number, sw: Number, sh: Number, rx: bool, ry: bool)

  /** Lines 1557-1577: the resource looked up by url, the sprite's size, the
      repetition flags and the frame offset, in the order `drawShape` reads them. */
  function CutSprite(sprite: Value, f: Box, step: nat, sprites: map<string, Value>): Attempt<Cut> {
    var url := Prop(sprite, "url");
    var x, y := Prop(sprite, "x"), Prop(sprite, "y");
    if !url.Str? || (Truthy(x) && !x.Num?) || (Truthy(y) && !y.Num?) then Fails(Unsupported)
    else
      var res := if url.s in sprites then sprites[url.s] else Undef;
      var sw := SpriteSize(Prop(sprite, "w"), f.ew, res, "width");
      var sh := SpriteSize(Prop(sprite, "h"), f.eh, res, "height");
      var repeat := Prop(sprite, "repeat");
      if sw.Fails? then Fails(sw.halt)
      else if sh.Fails? then Fails(sh.halt)
      else if Truthy(repeat) && Mentions(repeat, 'x').None? then Fails(TypeErrorThrown)
      else
        var rx := Truthy(repeat) && Mentions(repeat, 'x') == Some(true);
        var ry := Truthy(repeat) && Mentions(repeat, 'y') == Some(true);
        var frame := FrameIndex(step, OrNumber(Prop(sprite, "delay"), Some(0.0)), ToNumber(Prop(sprite, "frames")));
        var framed := Truthy(Prop(sprite, "frames"));
        var vertical := Truthy(Prop(sprite, "vertical"));
        var sx := if framed && !vertical then Add(Offset(sprite, "x"), Mul(frame, sw.value)) else Offset(sprite, "x");
        var sy := if framed && vertical then Add(Offset(sprite, "y"), Mul(frame, sh.value)) else Offset(sprite, "y");
        Ok(Cut(res, sx, sy, sw.value, sh.value, rx, ry))
  }

  /** The sprite's painting: where in the image the frame is cut from, its size, and
      the tiles it is painted at. */
  datatype SpriteDraw = SpriteDraw(sx: Number, sy: Number, sw: Number, sh: Number, tiles: seq<(real, real)>)

  /** Lines 1579-1594: the nested do-while. Its first `drawImage` throws when the
      resource is missing; a repetition that never advances never ends. */
  function SpriteSpec(cut: Cut, box: Box): Attempt<SpriteDraw> {
    if cut.res.Undef? || cut.res.Null? then Fails(TypeErrorThrown)
    else if !Ends(cut.sw, box.ew, cut.rx) || !Ends(cut.sh, box.eh, cut.ry) then Fails(NeverEnds)
    else
      var tiles := Grid(Starts(0.0, cut.sw, box.ew, cut.rx), Starts(0.0, cut.sh, box.eh, cut.ry));
      Ok(SpriteDraw(cut.sx, cut.sy, cut.sw, cut.sh, tiles))
  }

  /** The sprite loop, painting with `Tiles`. */
  method PaintSprite(cut: Cut, box: Box) returns (r: Attempt<SpriteDraw>)
    ensures r == SpriteSpec(cut, box)
  {
    if cut.res.Undef? || cut.res.Null? {
      return Fails(TypeErrorThrown);
    }
    if !Ends(cut.sw, box.ew, cut.rx) || !Ends(cut.sh, box.eh, cut.ry) {
      return Fails(NeverEnds);
    }
    var tiles := Tiles(cut.sw, cut.sh, box.ew, box.eh, cut.rx, cut.ry);
    r := Ok(SpriteDraw(cut.sx, cut.sy, cut.sw, cut.sh, tiles));
  }

  /** What drawing one shape did: the anchors written back onto the element and onto
      the drawing, the gradients completed on the drawing's `fill` and `stroke`, the
      sprite painting, and how it ended. */
  datatype Painted = Painted(elAnchor: Option<Value>, drawingAnchor: Option<Value>,
                             gradients: seq<(string, Value)>, sprite: Option<SpriteDraw>, halt: Option<Halt>)

  /** Lines 1312-1335: a rotated element without an anchor gets the box's centre;
      a rotated drawing without one gets the element's anchor as it now is, or the
      box's centre. */
  function Anchors(el: Value, drawing: Value, box: Box): (Option<Value>, Option<Value>) {
    var elAnchor := if Truthy(Prop(el, "angle")) && !Truthy(Prop(el, "anchor")) then Some(DefaultAnchor(box)) else None;
    var current := if elAnchor.Some? then elAnchor.value else Prop(el, "anchor");
    var drawingAnchor :=
      if Truthy(Prop(drawing, "angle")) && !Truthy(Prop(drawing, "anchor"))
      then Some(if Truthy(current) then current else DefaultAnchor(box))
      else None;
    (elAnchor, drawingAnchor)
  }

  /** Everything after the box: the anchors, the checks that throw, and the sprite. */
  function AfterBox(el: Value, drawing: Value, box: Box, step: nat, sprites: map<string, Value>): Painted {
    var (elAnchor, drawingAnchor) := Anchors(el, drawing, box);
    var styled := ShapeHalt(el, drawing);
    var gs := styled.gradients;
    var sprite := Prop(drawing, "sprite");
    if styled.halt.Some? then Painted(elAnchor, drawingAnchor, gs, None, styled.halt)
    else if !(Truthy(sprite) && Truthy(Prop(sprite, "url"))) then Painted(elAnchor, drawingAnchor, gs, None, None)
    else
      var f := Box(FinalSize(drawing, "w", box.ew), FinalSize(drawing, "h", box.eh));
      var cut := CutSprite(sprite, f, step, sprites);
      if cut.Fails? then Painted(elAnchor, drawingAnchor, gs, None, Some(cut.halt))
      else
        var d := SpriteSpec(cut.value, box);
        if d.Fails? then Painted(elAnchor, drawingAnchor, gs, None, Some(d.halt))
        else Painted(elAnchor, drawingAnchor, gs, Some(d.value), None)
  }

  /** `drawShape(drawing)` for element `el`, lines 1270-1599. */
  function DrawShapeSpec(el: Value, drawing: Value, step: nat, sprites: map<string, Value>): Painted {
    if !Truthy(drawing) || StrictEquals(Prop(drawing, "hidden"), Bool(true)) then Painted(None, None, [], None, None)
    else
      var b := BoxSpec(Prop(el, "w"), Prop(el, "h"), Prop(drawing, "shape"));
      if b.None? then Painted(None, None, [], None, Some(TypeErrorThrown))
      else AfterBox(el, drawing, b.value, step, sprites)
  }

  /** `drawShape`, computing the box and the tiles with their loops. */
  method DrawShape(el: Value, drawing: Value, step: nat, sprites: map<string, Value>) returns (r: Painted)
    ensures r == DrawShapeSpec(el, drawing, step, sprites)
  {
    if !Truthy(drawing) || StrictEquals(Prop(drawing, "hidden"), Bool(true)) {
      return Painted(None, None, [], None, None);
    }
    var b := BoundingBox(Prop(el, "w"), Prop(el, "h"), Prop(drawing, "shape"));
    if b.None? {
      return Painted(None, None, [], None, Some(TypeErrorThrown));
    }
    r := PaintInBox(el, drawing, b.value, step, sprites);
  }

  method PaintInBox(el: Value, drawing: Value, box: Box, step: nat, sprites: map<string, Value>) returns (r: Painted)
    ensures r == AfterBox(el, drawing, box, step, sprites)
  {
    var (elAnchor, drawingAnchor) := Anchors(el, drawing, box);
    var styled := ShapeHalt(el, drawing);
    var gs := styled.gradients;
    var sprite := Prop(drawing, "sprite");
    if styled.halt.Some? {
      return Painted(elAnchor, drawingAnchor, gs, None, styled.halt);
    }
    if !(Truthy(sprite) && Truthy(Prop(sprite, "url"))) {
      return Painted(elAnchor, drawingAnchor, gs, None, None);
    }
    var f := Box(FinalSize(drawing, "w", box.ew), FinalSize(drawing, "h", box.eh));
    var cut := CutSprite(sprite, f, step, sprites);
    if cut.Fails? {
      return Painted(elAnchor, drawingAnchor, gs, None, Some(cut.halt));
    }
    var d := PaintSprite(cut.value, box);
    if d.Fails? {
      return Painted(elAnchor, drawingAnchor, gs, None, Some(d.halt));
    }
    r := Painted(elAnchor, drawingAnchor, gs, Some(d.value), None);
  }

  /** A drawing marked `hidden: true`, or a falsy one, is skipped without effect. */
  lemma HiddenIsSkipped(el: Value, drawing: Value, step: nat, sprites: map<string, Value>)
    requires !Truthy(drawing) || Prop(drawing, "hidden") == Bool(true)
    ensures DrawShapeSpec(el, drawing, step, sprites) == Painted(None, None, [], None, None)
  {
  }

  /** Filling a circle throws a ReferenceError (the radius reads the undeclared `W`),
      after the anchor of a rotated element without one has been written back and
      after the fill's gradient, if it uses one, has been completed. */
  lemma CircleFillThrows(el: Value, drawing: Value, step: nat, sprites: map<string, Value>)
    requires Prop(drawing, "shape") == Str("circle") && Truthy(Prop(drawing, "fill"))
    requires Prop(drawing, "hidden") != Bool(true)
    requires !FlipThrows(Prop(el, "flip")) && !FlipThrows(Prop(drawing, "flip"))
    requires StyleGradient(drawing, "fill").Ok?
    ensures var p := DrawShapeSpec(el, drawing, step, sprites);
      && p.halt == Some(ReferenceErrorThrown)
      && p.sprite.None?
      && p.gradients == StyleGradient(drawing, "fill").value
      && (p.elAnchor.Some? <==> Truthy(Prop(el, "angle")) && !Truthy(Prop(el, "anchor")))
  {
    assert ShapeHalt(el, drawing) == Styled(StyleGradient(drawing, "fill").value, Some(ReferenceErrorThrown));
    assert Truthy(drawing);
  }

  /** A gradient object gets a truthy `start` and `end`: the ones it had, or the
      defaults `[0, 0]` and `[100, 0]`; its other properties stay as they were. */
  lemma GradientDefaultsWrites(fields: Dict<Value>)
    requires DistinctKeys(fields)
    ensures var r := GradientDefaults(Obj(fields));
      && r.Ok? && r.value.Obj? && DistinctKeys(r.value.fields)
      && Prop(r.value, "start") == (if Truthy(Prop(Obj(fields), "start")) then Prop(Obj(fields), "start") else DefaultStart)
      && Prop(r.value, "end") == (if Truthy(Prop(Obj(fields), "end")) then Prop(Obj(fields), "end") else DefaultEnd)
      && Truthy(Prop(r.value, "start")) && Truthy(Prop(r.value, "end"))
      && forall k :: k != "start" && k != "end" ==> Prop(r.value, k) == Prop(Obj(fields), k)
  {
    var g := Obj(fields);
    var f1 := if Truthy(Prop(g, "start")) then fields else Set(fields, "start", DefaultStart);
    var f2 := if Truthy(Prop(g, "end")) then f1 else Set(f1, "end", DefaultEnd);
    assert GradientDefaults(g) == Ok(Obj(f2)) by {
      if Truthy(Prop(g, "start")) && Truthy(Prop(g, "end")) {
        assert f2 == fields;
      }
    }
    if !Truthy(Prop(g, "start")) {
      PropSet(g, "start", DefaultStart);
    }
    if !Truthy(Prop(g, "end")) {
      PropSet(Obj(f1), "end", DefaultEnd);
    }
  }

  /** A fill whose gradient is a truthy primitive (`{linearGradient: "red"}`) throws a
      TypeError in `createLinearGradient`, under strict mode, before anything is
      filled or stroked and before any gradient is completed. */
  lemma PrimitiveGradientThrows(el: Value, drawing: Value)
    requires !FlipThrows(Prop(el, "flip")) && !FlipThrows(Prop(drawing, "flip"))
    requires Truthy(Prop(drawing, "fill")) && UsesGradient(Prop(drawing, "fill"))
    requires var g := Prop(Prop(drawing, "fill"), "linearGradient"); !g.Obj? && !g.Arr? && !g.Fn?
    ensures ShapeHalt(el, drawing) == Styled([], Some(TypeErrorThrown))
  {
    var g := Prop(Prop(drawing, "fill"), "linearGradient");
    assert !Truthy(Prop(g, "start"));
  }

  /** When neither style throws and the shape is a rectangle, the fill's gradient is
      completed first and the stroke's second, and the steps end normally. */
  lemma GradientsInOrder(el: Value, drawing: Value)
    requires !FlipThrows(Prop(el, "flip")) && !FlipThrows(Prop(drawing, "flip"))
    requires StyleGradient(drawing, "fill").Ok? && StyleGradient(drawing, "stroke").Ok?
    requires Prop(drawing, "shape") == Str("rect")
    ensures ShapeHalt(el, drawing) == Styled(StyleGradient(drawing, "fill").value + StyleGradient(drawing, "stroke").value, None)
  {
  }

  /** A rotated drawing on a rotated element, neither with an anchor, turns about the
      same point as the element: the centre of the box. */
  lemma DrawingTurnsWithElement(el: Value, drawing: Value, box: Box)
    requires Truthy(Prop(el, "angle")) && !Truthy(Prop(el, "anchor"))
    requires Truthy(Prop(drawing, "angle")) && !Truthy(Prop(drawing, "anchor"))
    ensures Anchors(el, drawing, box) == (Some(DefaultAnchor(box)), Some(DefaultAnchor(box)))
  {
  }

  /** A missing resource makes the sprite loop throw, whether or not it would end. */
  lemma MissingResourceThrows(cut: Cut, box: Box)
    requires cut.res.Undef? || cut.res.Null?
    ensures SpriteSpec(cut, box) == Fails(TypeErrorThrown)
  {
  }

  /** Without repetition the sprite is painted once, at the origin. */
  lemma SingleTile(cut: Cut, box: Box)
    requires SpriteSpec(cut, box).Ok? && !cut.rx && !cut.ry
    ensures SpriteSpec(cut, box).value.tiles == [(0.0, 0.0)]
  {
    StartsReachBound(0.0, cut.sw, box.ew, false);
    StartsReachBound(0.0, cut.sh, box.eh, false);
    GridSnoc([], 0.0, [0.0]);
    assert Grid([], [0.0]) == [];
    assert [0.0] == [] + [0.0];
  }

  /** `i` widths from the origin. */
  function Multiple(i: nat, size: real): real {
    (i as real) * size
  }

  /** A sprite repeated along x with a positive width is painted from the origin up
      to a column that reaches the element's right edge. */
  lemma RepeatedSpriteReachesEdge(cut: Cut, box: Box)
    requires SpriteSpec(cut, box).Ok? && cut.rx && cut.sw.Some? && box.ew.Some? && cut.sw.value > 0.0
    ensures (0.0, 0.0) in SpriteSpec(cut, box).value.tiles
    ensures exists last :: last in SpriteSpec(cut, box).value.tiles && last.0 + cut.sw.value >= box.ew.value
  {
    var xs := Starts(0.0, cut.sw, box.ew, true);
    var ys := Starts(0.0, cut.sh, box.eh, cut.ry);
    assert SpriteSpec(cut, box).value.tiles == Grid(xs, ys);
    StartsReachBound(0.0, cut.sw, box.ew, true);
    GridHasEveryPair(xs, ys, 0, 0);
    GridHasEveryPair(xs, ys, |xs| - 1, 0);
    assert (xs[|xs| - 1], ys[0]) in SpriteSpec(cut, box).value.tiles;
  }

  /** Each start position of a repeating loop from 0 with a positive size is a
      whole number of sizes, and every one but the first lies below the bound. */
  lemma RepeatedStarts(size: real, bound: Number, p: real)
    requires size > 0.0 && bound.Some?
    requires p in Starts(0.0, Some(size), bound, true)
    ensures exists i: nat :: p == Multiple(i, size)
    ensures p == 0.0 || p < bound.value
  {
    var xs := Starts(0.0, Some(size), bound, true);
    StartsAdvance(0.0, Some(size), bound, true);
    StartsBelowBound(0.0, Some(size), bound, true);
    var i :| 0 <= i < |xs| && xs[i] == p;
    if i == 0 {
      assert p == Multiple(0, size);
    } else {
      assert p == Multiple(i, size);
    }
  }

  /** Each column of a sprite repeated along x with a positive width starts at a
      whole number of widths, and every column but the first starts inside the
      element. */
  lemma RepeatedSpriteColumns(cut: Cut, box: Box, t: (real, real))
    requires SpriteSpec(cut, box).Ok? && cut.rx && cut.sw.Some? && box.ew.Some? && cut.sw.value > 0.0
    requires t in SpriteSpec(cut, box).value.tiles
    ensures exists i: nat :: t.0 == Multiple(i, cut.sw.value)
    ensures t.0 == 0.0 || t.0 < box.ew.value
  {
    var xs := Starts(0.0, cut.sw, box.ew, true);
    var ys := Starts(0.0, cut.sh, box.eh, cut.ry);
    assert SpriteSpec(cut, box).value.tiles == Grid(xs, ys);
    GridOnlyPairs(xs, ys, t);
    RepeatedStarts(cut.sw.value, box.ew, t.0);
  }
}
