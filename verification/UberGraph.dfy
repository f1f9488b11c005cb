/**
 * The values behind the graph of uber-graph.c: each line keeps its raw values and their images under the present scale,
 * while the range of the scale follows the values. Doubles are reals or minus infinity.
 */
module UberGraphs {
  import opened Options
  import R = Rings

  type Val = R.Val
  type Ring = R.Ring

  const SCALE_FACTOR := 1.3334

  datatype Range = Range(begin: real, end: real, range: real)

  /** Vertical place of the content area, in pixels. */
  datatype Content = Content(y: real, height: real)

  datatype Line = Line(raw: Ring, scaled: Ring)

  /** Maps a value from the first range to the second, if it can. */
  type Scale = (Range, Range, real) -> Option<real>

  function PixelRange(c: Content): Range { Range(c.y + 1.0, c.y + c.height - 1.0, c.height - 2.0) }

  function Abs(x: real): real { if x < 0.0 then -x else x }

  /** `uber_scale_linear`: None where it would divide by zero. */
  function LinearScale(values: Range, pixels: Range, v: real): Option<real> {
    if v == 0.0 then Some(v) else if values.range == 0.0 then None else Some(v * pixels.range / values.range)
  }

  function Image(scale: Scale, values: Range, pixels: Range, v: Val): Val {
    if v.NegInf? then v
    else match scale(values, pixels, v.value)
      case Some(x) => R.Fin(x)
      case None => R.NegInf
  }

  function Imager(scale: Scale, values: Range, pixels: Range): Val -> Val { v => Image(scale, values, pixels, v) }

  // ---------------------------------------------------------------- what holds of a line

  /** Both rings are in step, and where there is no value there is no image. */
  predicate InStep(line: Line) {
    && R.Valid(line.raw) && |line.scaled.buf| == |line.raw.buf| && line.scaled.pos == line.raw.pos
    && forall j | 0 <= j < |line.raw.buf| && line.raw.buf[j].NegInf? :: line.scaled.buf[j].NegInf?
  }

  /** Every slot of the scaled ring is the image of the slot of the raw one. */
  predicate Coherent(line: Line, scale: Scale, values: Range, pixels: Range) {
    R.Valid(line.raw) && line.scaled == R.Map(Imager(scale, values, pixels), line.raw)
  }

  predicate Within(line: Line, values: Range) {
    forall j | 0 <= j < |line.raw.buf| && line.raw.buf[j].Fin? :: values.begin <= line.raw.buf[j].value <= values.end
  }

  predicate AllInStep(lines: seq<Line>) { forall i | 0 <= i < |lines| :: InStep(lines[i]) }

  predicate AllCoherent(lines: seq<Line>, scale: Scale, values: Range, pixels: Range) {
    forall i | 0 <= i < |lines| :: Coherent(lines[i], scale, values, pixels)
  }

  predicate AllWithin(lines: seq<Line>, values: Range) { forall i | 0 <= i < |lines| :: Within(lines[i], values) }

  /** The range holds zero, and its length is what it says. */
  predicate Sound(values: Range) { values.begin <= 0.0 <= values.end && values.range == values.end - values.begin }

  // ---------------------------------------------------------------- the range follows the values

  /** How the range grows for a new value under autoscale. */
  function Extended(values: Range, v: Val): Range {
    if v.NegInf? then values
    else if v.value > values.end then
      var end := v.value + Abs((SCALE_FACTOR - 1.0) * v.value);
      Range(values.begin, end, end - values.begin)
    else if v.value < values.begin then
      var begin := v.value - Abs((SCALE_FACTOR - 1.0) * v.value);
      Range(begin, values.end, values.end - begin)
    else values
  }

  function ExtendedAll(values: Range, vs: seq<Val>): Range
    decreases |vs|
  {
    if vs == [] then values else Extended(ExtendedAll(values, vs[..|vs| - 1]), vs[|vs| - 1])
  }

  /** The range grows only for a value outside it, to a third more than the value, and only on that side. */
  lemma ExtendedExact(values: Range, v: Val)
    requires Sound(values)
    ensures var e := Extended(values, v);
      if v.Fin? && v.value > values.end then
        e == Range(values.begin, 1.3334 * v.value, 1.3334 * v.value - values.begin)
      else if v.Fin? && v.value < values.begin then
        e == Range(1.3334 * v.value, values.end, values.end - 1.3334 * v.value)
      else e == values
  {
  }

  predicate Contains(outer: Range, inner: Range) { outer.begin <= inner.begin && inner.end <= outer.end }

  lemma ExtendedContains(values: Range, v: Val)
    requires Sound(values)
    ensures Sound(Extended(values, v)) && Contains(Extended(values, v), values)
    ensures v.Fin? ==> Extended(values, v).begin <= v.value <= Extended(values, v).end
  {
  }

  lemma WithinLarger(lines: seq<Line>, inner: Range, outer: Range)
    requires AllWithin(lines, inner) && Contains(outer, inner)
    ensures AllWithin(lines, outer)
  {
    forall i | 0 <= i < |lines| ensures Within(lines[i], outer) {
      assert Within(lines[i], inner);
    }
  }

  /**
   * Under the linear scale a line within a sound range is never divided by zero: every slot is the value times the
   * pixels over the range.
   */
  lemma LinearNeverFails(line: Line, values: Range, pixels: Range, j: nat)
    requires Coherent(line, LinearScale, values, pixels) && Within(line, values) && Sound(values)
    requires j < |line.raw.buf| && line.raw.buf[j].Fin?
    ensures var v := line.raw.buf[j].value;
      if v == 0.0 then line.scaled.buf[j] == R.Fin(0.0)
      else values.range > 0.0 && line.scaled.buf[j] == R.Fin(v * pixels.range / values.range)
  {
  }

  /**
   * The linear scale lets a sound range fill the height of the content area less a pixel at either edge: the images of
   * its two ends lie that far apart, and that of any value within it lies between them.
   */
  lemma ImagesFillContent(values: Range, c: Content, v: real)
    requires Sound(values) && values.range > 0.0 && values.begin <= v <= values.end && c.height >= 2.0
    ensures PixelRange(c).begin == c.y + 1.0 && PixelRange(c).end == c.y + c.height - 1.0
    ensures var low, x, high := LinearScale(values, PixelRange(c), values.begin), LinearScale(values, PixelRange(c), v),
                                LinearScale(values, PixelRange(c), values.end);
      && low.Some? && x.Some? && high.Some?
      && low.value <= x.value <= high.value && high.value - low.value == c.height - 2.0
  {
    var p := c.height - 2.0;
    LinearIs(values, PixelRange(c), values.begin);
    LinearIs(values, PixelRange(c), v);
    LinearIs(values, PixelRange(c), values.end);
    hide LinearScale, Proportion;
    ProportionOrder(values.begin, v, p, values.range);
    ProportionOrder(v, values.end, p, values.range);
    ProportionSpan(values.begin, values.end, p, values.range);
  }

  function Proportion(v: real, p: real, range: real): real
    requires range > 0.0
  {
    v * p / range
  }

  lemma LinearIs(values: Range, pixels: Range, v: real)
    requires values.range > 0.0
    ensures var x := LinearScale(values, pixels, v); x.Some? && x.value == Proportion(v, pixels.range, values.range)
  {
    if v == 0.0 {
      ZeroProportion(pixels.range, values.range);
    }
  }

  lemma ZeroProportion(p: real, range: real)
    requires range > 0.0
    ensures Proportion(0.0, p, range) == 0.0
  {
    assert 0.0 * p == 0.0;
  }

  lemma ProportionSpan(a: real, b: real, p: real, range: real)
    requires b - a == range > 0.0
    ensures Proportion(b, p, range) - Proportion(a, p, range) == p
  {
    assert b * p - a * p == range * p;
    assert b * p / range - a * p / range == (b * p - a * p) / range;
  }

  lemma ProportionOrder(a: real, b: real, p: real, range: real)
    requires a <= b && p >= 0.0 && range > 0.0
    ensures Proportion(a, p, range) <= Proportion(b, p, range)
  {
    assert b * p - a * p == (b - a) * p >= 0.0;
    assert b * p / range - a * p / range == (b * p - a * p) / range >= 0.0;
  }

  // ---------------------------------------------------------------- one line at a time

  function Appended(line: Line, v: Val, image: Val): Line
    requires InStep(line)
  {
    Line(R.Append(line.raw, v), R.Append(line.scaled, image))
  }

  lemma AppendedInStep(line: Line, v: Val, scale: Scale, values: Range, pixels: Range)
    requires InStep(line)
    ensures InStep(Appended(line, v, Image(scale, values, pixels, v)))
  {
  }

  lemma AppendedCoherent(line: Line, v: Val, scale: Scale, values: Range, pixels: Range)
    requires Coherent(line, scale, values, pixels)
    ensures InStep(line) && Coherent(Appended(line, v, Image(scale, values, pixels, v)), scale, values, pixels)
  {
    R.AppendCommutes(Imager(scale, values, pixels), line.raw, v);
  }

  lemma AppendedWithin(line: Line, v: Val, image: Val, values: Range)
    requires InStep(line) && Within(line, values) && (v.Fin? ==> values.begin <= v.value <= values.end)
    ensures Within(Appended(line, v, image), values)
  {
  }

  function Resized(line: Line, size: nat): Line
    requires InStep(line) && size > 0
  {
    Line(R.SetSize(line.raw, size), R.SetSize(line.scaled, size))
  }

  /** The size cuts the line's rings exactly at their position. */
  predicate CutAtPos(line: Line, size: nat) { size < |line.raw.buf| && size == line.raw.pos }

  /** Resizing both rings keeps them coherent unless it cuts them at their position, and brings no new value. */
  lemma ResizedCoherent(line: Line, size: nat, scale: Scale, values: Range, pixels: Range)
    requires Coherent(line, scale, values, pixels) && size > 0
    ensures InStep(line) && (Coherent(Resized(line, size), scale, values, pixels) <==> !CutAtPos(line, size))
    ensures Within(line, values) ==> Within(Resized(line, size), values)
  {
    hide R.Grow, R.Shrink;
    R.SetSizeCommutes(Imager(scale, values, pixels), line.raw, size);
    forall k | 0 <= k < size && size != |line.raw.buf|
      ensures R.SetSize(line.raw, size).buf[k].Fin? ==> R.SetSize(line.raw, size).buf[k] in line.raw.buf
    {
      if size > |line.raw.buf| {
        R.GrownAt(line.raw, size, k);
      } else {
        R.ShrunkAt(line.raw, size, k);
      }
    }
    if size < |line.raw.buf| {
      R.ShrunkAt(line.raw, size, 0);
    }
  }

  /** The inner loop of `uber_graph_update_scaled`. */
  method Rescale(line: Line, scale: Scale, values: Range, pixels: Range) returns (l: Line)
    requires InStep(line)
    ensures l.raw == line.raw && Coherent(l, scale, values, pixels)
    ensures forall j | 0 <= j < |line.raw.buf| && line.raw.buf[j].Fin? ::
      match scale(values, pixels, line.raw.buf[j].value)
      case Some(x) => l.scaled.buf[j] == R.Fin(x)
      case None => l.scaled.buf[j] == R.NegInf
  {
    var scaled := line.scaled.buf;
    var j := 0;
    while j < |line.raw.buf|
      invariant 0 <= j <= |line.raw.buf| == |scaled|
      invariant forall k | 0 <= k < j :: scaled[k] == Image(scale, values, pixels, line.raw.buf[k])
      invariant forall k | j <= k < |scaled| :: scaled[k] == line.scaled.buf[k]
    {
      if line.raw.buf[j].Fin? {
        scaled := scaled[j := match scale(values, pixels, line.raw.buf[j].value)
                              case Some(x) => R.Fin(x)
                              case None => R.NegInf];
      }
      j := j + 1;
    }
    l := Line(line.raw, R.Ring(scaled, line.scaled.pos));
  }

  // ---------------------------------------------------------------- downscaling

  /** All values of the lines, newest first. */
  function Values(lines: seq<Line>): seq<Val>
    requires AllInStep(lines)
  {
    if lines == [] then []
    else
      assert forall i | 0 <= i < |lines| - 1 :: lines[..|lines| - 1][i] == lines[i];
      Values(lines[..|lines| - 1]) + R.Recent(lines[|lines| - 1].raw)
  }

  predicate Below(v: Val, top: real) { v.Fin? ==> v.value <= top }

  /** The greatest of the values, or zero if that is greater. */
  predicate IsTop(top: real, vs: seq<Val>) {
    top >= 0.0 && (forall v | v in vs :: Below(v, top)) && (top == 0.0 || R.Fin(top) in vs)
  }

  predicate AllZero(vs: seq<Val>) { forall v | v in vs :: v == R.Fin(0.0) }

  /** What `uber_graph_extend_range` has made of an empty range: the least and the greatest value, and zero. */
  predicate Spans(begin: Val, end: real, vs: seq<Val>) {
    IsTop(end, vs) && (begin.Fin? ==> begin.value <= 0.0) && (begin == R.Fin(0.0) && end == 0.0 <==> AllZero(vs))
  }

  /** `uber_graph_extend_range` */
  method ExtendRange(begin: Val, end: real, v: Val, ghost vs: seq<Val>) returns (low: Val, high: real)
    requires Spans(begin, end, vs)
    ensures Spans(low, high, vs + [v])
  {
    low := if begin.NegInf? || (v.Fin? && begin.value < v.value) then begin else v;
    high := if v.NegInf? || end > v.value then end else v.value;
    OneMore(begin, end, v, vs);
  }

  lemma OneMore(begin: Val, end: real, v: Val, vs: seq<Val>)
    ensures AllZero(vs + [v]) <==> AllZero(vs) && v == R.Fin(0.0)
    ensures IsTop(end, vs) ==> IsTop(if v.NegInf? || end > v.value then end else v.value, vs + [v])
  {
    var more := vs + [v];
    assert forall x :: x in more <==> x in vs || x == v;
    assert v in more;
    if v.Fin? && v.value == 0.0 {
      assert v == R.Fin(0.0);
    }
  }

  /** Extends the range over the values of one ring. */
  method ExtendOver(begin: Val, end: real, recent: seq<Val>, ghost before: seq<Val>) returns (low: Val, high: real)
    requires Spans(begin, end, before)
    ensures Spans(low, high, before + recent)
  {
    hide Spans;
    low, high := begin, end;
    var j := 0;
    assert before + recent[..0] == before;
    while j < |recent|
      invariant 0 <= j <= |recent|
      invariant Spans(low, high, before + recent[..j])
    {
      low, high := ExtendRange(low, high, recent[j], before + recent[..j]);
      assert recent[..j + 1] == recent[..j] + [recent[j]];
      assert before + recent[..j] + [recent[j]] == before + recent[..j + 1];
      j := j + 1;
    }
    assert recent[..j] == recent;
  }

  method SpanOf(lines: seq<Line>) returns (begin: Val, end: real)
    requires AllInStep(lines)
    ensures Spans(begin, end, Values(lines))
  {
    hide Spans;
    begin, end := R.Fin(0.0), 0.0;
    SpansNothing();
    var i := 0;
    while i < |lines|
      invariant 0 <= i <= |lines| && AllInStep(lines[..i])
      invariant Spans(begin, end, Values(lines[..i]))
    {
      begin, end := ExtendOver(begin, end, R.Recent(lines[i].raw), Values(lines[..i]));
      assert lines[..i + 1][..i] == lines[..i];
      i := i + 1;
    }
    assert lines[..i] == lines;
  }

  /** The range brought down to `top` with the margin, if that is lower and not all values are zero. */
  function Downscaled(values: Range, top: real, vs: seq<Val>): Range {
    if AllZero(vs) || top * SCALE_FACTOR >= values.end then values
    else Range(values.begin, top * SCALE_FACTOR, top * SCALE_FACTOR - values.begin)
  }

  /**
   * A range of some length is brought down to a single point if and only if it begins at zero and no value is positive
   * while some slot is empty or not zero; so it is in a graph that has only empty slots.
   */
  lemma DownscaledToPoint(values: Range, top: real, vs: seq<Val>)
    requires Sound(values) && values.range > 0.0 && IsTop(top, vs)
    ensures Downscaled(values, top, vs).range == 0.0
       <==> values.begin == 0.0 && !AllZero(vs) && forall v | v in vs :: Below(v, 0.0)
    ensures values.begin == 0.0 && vs != [] && (forall v | v in vs :: v.NegInf?) ==>
      Downscaled(values, top, vs) == Range(0.0, 0.0, 0.0)
  {
    if top > 0.0 {
      assert !Below(R.Fin(top), 0.0);
    }
    if vs != [] {
      assert vs[0] in vs;
    }
  }

  lemma SomeNotZero(vs: seq<Val>)
    ensures AllZero(vs) <==> !exists v :: v in vs && v != R.Fin(0.0)
  {
  }

  lemma {:induction false} ValuesByRaw(a: seq<Line>, b: seq<Line>)
    requires AllInStep(a) && AllInStep(b) && |a| == |b| && forall i | 0 <= i < |a| :: a[i].raw == b[i].raw
    ensures Values(a) == Values(b)
  {
    if a != [] {
      ValuesByRaw(a[..|a| - 1], b[..|b| - 1]);
    }
  }

  /** A second downscale, with no new value since the first, changes nothing. */
  lemma DownscaleSettles(before: seq<Line>, after: seq<Line>, values: Range, top: real, again: real)
    requires AllInStep(before) && AllInStep(after) && |before| == |after|
    requires forall i | 0 <= i < |before| :: after[i].raw == before[i].raw
    requires IsTop(top, Values(before)) && IsTop(again, Values(after))
    ensures again == top
    ensures var once := Downscaled(values, top, Values(before)); Downscaled(once, again, Values(after)) == once
  {
    ValuesByRaw(before, after);
    assert Below(R.Fin(top), again) || top == 0.0;
    assert Below(R.Fin(again), top) || again == 0.0;
  }

  lemma SpansNothing()
    ensures Spans(R.Fin(0.0), 0.0, [])
  {
  }

  lemma {:induction false} ValuesHold(lines: seq<Line>, i: nat, j: nat)
    requires AllInStep(lines) && i < |lines| && j < |lines[i].raw.buf|
    ensures lines[i].raw.buf[j] in Values(lines)
  {
    var n := |lines| - 1;
    if i == n {
      R.SlotByAge(lines[n].raw, j);
      assert lines[n].raw.buf[j] in R.Recent(lines[n].raw);
    } else {
      ValuesHold(lines[..n], i, j);
    }
  }

  /** A range that reaches from its beginning to above every value still holds the values. */
  lemma LoweredWithin(lines: seq<Line>, values: Range, top: real, end: real)
    requires AllInStep(lines) && AllWithin(lines, values) && IsTop(top, Values(lines)) && top <= end
    ensures AllWithin(lines, Range(values.begin, end, end - values.begin))
  {
    forall i, j | 0 <= i < |lines| && 0 <= j < |lines[i].raw.buf| && lines[i].raw.buf[j].Fin?
      ensures values.begin <= lines[i].raw.buf[j].value <= end
    {
      assert Within(lines[i], values);
      ValuesHold(lines, i, j);
      assert Below(lines[i].raw.buf[j], top);
    }
  }

  // ---------------------------------------------------------------- the graph

  class UberGraph {
    var lines: seq<Line>
    var scale: Scale
    var yrange: Range
    var content: Content
    var stride: nat
    var fps: nat
    var fpsOff: nat
    const yautoscale: bool

    /** The scaled values are the images of the raw ones and, if the graph scales itself, the range holds them all. */
    ghost predicate Valid()
      reads this
    {
      && stride > 0
      && AllCoherent(lines, scale, yrange, PixelRange(content))
      && (yautoscale ==> Sound(yrange) && AllWithin(lines, yrange))
    }

    constructor (yautoscale: bool, content: Content)
      ensures Valid() && this.yautoscale == yautoscale && lines == []
      ensures yrange == Range(0.0, 1.0, 1.0) && scale == LinearScale
    {
      lines, scale, yrange := [], LinearScale, Range(0.0, 1.0, 1.0);
      stride, fps, fpsOff := 60, 20, 0;
      this.yautoscale, this.content := yautoscale, content;
    }

    /** `uber_graph_append` for line `i`; true if the range had to grow. */
    method Append(i: nat, value: Val) returns (changed: bool)
      requires i < |lines| && InStep(lines[i])
      modifies this`lines, this`yrange
      ensures yrange == if yautoscale then Extended(old(yrange), value) else old(yrange)
      ensures !changed ==> yrange == old(yrange)
      ensures lines == old(lines)[i :=
        Appended(old(lines)[i], value, Image(scale, yrange, PixelRange(content), value))]
    {
      changed := false;
      var v := value;
      var raw := R.Append(lines[i].raw, v);
      if v.Fin? {
        if yautoscale {
          if v.value > yrange.end {
            var end := v.value + Abs((SCALE_FACTOR - 1.0) * v.value);
            yrange := Range(yrange.begin, end, end - yrange.begin);
            changed := true;
          } else if v.value < yrange.begin {
            var begin := v.value - Abs((SCALE_FACTOR - 1.0) * v.value);
            yrange := Range(begin, yrange.end, yrange.end - begin);
            changed := true;
          }
        }
        v := match scale(yrange, PixelRange(content), v.value)
             case Some(x) => R.Fin(x)
             case None => R.NegInf;
      }
      lines := lines[i := Line(raw, R.Append(lines[i].scaled, v))];
    }

    /** `uber_graph_update_scaled` */
    method UpdateScaled()
      requires AllInStep(lines)
      modifies this`lines
      ensures AllCoherent(lines, scale, yrange, PixelRange(content)) && |lines| == |old(lines)|
      ensures forall i | 0 <= i < |lines| :: lines[i].raw == old(lines)[i].raw
      ensures AllWithin(lines, yrange) <==> AllWithin(old(lines), yrange)
    {
      var i := 0;
      while i < |lines|
        invariant 0 <= i <= |lines| == |old(lines)|
        invariant forall k | 0 <= k < i :: Coherent(lines[k], scale, yrange, PixelRange(content))
        invariant forall k | 0 <= k < i :: lines[k].raw == old(lines)[k].raw
        invariant forall k | i <= k < |lines| :: lines[k] == old(lines)[k]
      {
        var l := Rescale(lines[i], scale, yrange, PixelRange(content));
        lines := lines[i := l];
        i := i + 1;
      }
    }

    /** The next values go to the lines; a change of the range on the way leaves scaled values behind. */
    method AppendAll(values: seq<Val>) returns (changed: bool)
      requires Valid() && |values| == |lines|
      modifies this`lines, this`yrange
      ensures AllInStep(lines) && GotValues(old(lines), lines, values)
      ensures !changed ==> AllCoherent(lines, scale, yrange, PixelRange(content))
      ensures yautoscale ==> Sound(yrange) && AllWithin(lines, yrange)
      ensures yrange == if yautoscale then ExtendedAll(old(yrange), values) else old(yrange)
    {
      hide AllCoherent, AllWithin, InStep, Sound, Extended, R.Append, R.Valid;
      changed := false;
      ghost var was := lines;
      AllInStepWhenCoherent(lines, scale, yrange, PixelRange(content));
      var i := 0;
      while i < |lines|
        invariant 0 <= i <= |lines| == |was| && AllInStep(lines)
        invariant GotValues(was[..i], lines[..i], values[..i]) && lines[i..] == was[i..]
        invariant yrange == if yautoscale then ExtendedAll(old(yrange), values[..i]) else old(yrange)
        invariant !changed ==> AllCoherent(lines, scale, yrange, PixelRange(content))
        invariant yautoscale ==> Sound(yrange) && AllWithin(lines, yrange)
      {
        ghost var before, range := lines, yrange;
        var grew := Append(i, values[i]);
        TickOne(before, lines, i, values[i], scale, range, yrange, PixelRange(content), yautoscale);
        assert values[..i + 1][..i] == values[..i];
        changed := changed || grew;
        i := i + 1;
      }
      assert values[..i] == values && lines[..i] == lines && was[..i] == was;
    }

    /** `uber_graph_fps_timeout`: when a frame is complete, each line gets its next value. */
    method Tick(values: seq<Val>)
      requires Valid() && |values| == |lines|
      modifies this`lines, this`yrange, this`fpsOff
      ensures Valid()
      ensures old(fpsOff) < fps ==> lines == old(lines) && yrange == old(yrange) && fpsOff == old(fpsOff)
      ensures old(fpsOff) >= fps ==> fpsOff == 0 && GotValues(old(lines), lines, values)
      ensures old(fpsOff) >= fps ==> yrange == if yautoscale then ExtendedAll(old(yrange), values) else old(yrange)
    {
      hide AllCoherent, AllWithin, AllInStep, Sound, ExtendedAll, R.Append, R.Valid;
      if fpsOff < fps {
        return;
      }
      var changed := AppendAll(values);
      if changed {
        UpdateScaled();
      }
      fpsOff := 0;
    }

    /** Drawing a frame moves the picture on. */
    method Expose()
      requires Valid()
      modifies this`fpsOff
      ensures Valid() && fpsOff == old(fpsOff) + 1
    {
      fpsOff := fpsOff + 1;
    }

    /**
     * `uber_graph_downscale_timeout`: the end of the range comes down to the greatest value, or zero, with the margin;
     * not if all values are zero, and never up.
     */
    method Downscale() returns (top: real)
      requires Valid()
      modifies this`lines, this`yrange
      ensures Valid() && AllInStep(old(lines)) && IsTop(top, Values(old(lines)))
      ensures yrange == Downscaled(old(yrange), top, Values(old(lines)))
      ensures yrange.begin == old(yrange.begin) && yrange.end <= old(yrange.end)
      ensures yrange.end < old(yrange.end)
         <==> top * 1.3334 < old(yrange.end) && exists v :: v in Values(old(lines)) && v != R.Fin(0.0)
      ensures yrange.end < old(yrange.end) ==> yrange.end == top * 1.3334 && yrange.range == yrange.end - yrange.begin
      ensures yrange.end == old(yrange.end) ==> yrange == old(yrange)
      ensures |lines| == |old(lines)| && forall i | 0 <= i < |lines| :: lines[i].raw == old(lines)[i].raw
    {
      hide AllCoherent, AllWithin, AllInStep, AllZero, IsTop;
      AllInStepWhenCoherent(lines, scale, yrange, PixelRange(content));
      var begin;
      begin, top := SpanOf(lines);
      SpanIsPoint(begin, top, Values(lines));
      SomeNotZero(Values(lines));
      if begin == R.Fin(top) {
        return;
      }
      if top * SCALE_FACTOR < yrange.end {
        if yautoscale {
          LoweredWithin(lines, yrange, top, top * SCALE_FACTOR);
        }
        yrange := Range(yrange.begin, top * SCALE_FACTOR, top * SCALE_FACTOR - yrange.begin);
        UpdateScaled();
      }
    }

    /** `uber_graph_size_allocate` */
    method SizeAllocate(area: Content)
      requires Valid()
      modifies this`content, this`lines
      ensures Valid() && content == area && |lines| == |old(lines)|
      ensures forall i | 0 <= i < |lines| :: lines[i].raw == old(lines)[i].raw
    {
      AllInStepWhenCoherent(lines, scale, yrange, PixelRange(content));
      content := area;
      UpdateScaled();
    }

    /** `uber_graph_set_scale` */
    method SetScale(s: Scale)
      requires Valid()
      modifies this`scale, this`lines
      ensures Valid() && scale == s && |lines| == |old(lines)|
      ensures forall i | 0 <= i < |lines| :: lines[i].raw == old(lines)[i].raw
    {
      AllInStepWhenCoherent(lines, scale, yrange, PixelRange(content));
      scale := s;
      UpdateScaled();
    }

    /** `uber_graph_set_stride`: it keeps the graph valid unless it cuts some ring exactly at its position. */
    method SetStride(size: nat)
      requires Valid() && size > 0
      modifies this`stride, this`lines
      ensures Valid() <==> forall i | 0 <= i < |old(lines)| :: !CutAtPos(old(lines)[i], size)
      ensures stride == size && |lines| == |old(lines)|
      ensures forall i | 0 <= i < |lines| :: InStep(old(lines)[i]) && lines[i] == Resized(old(lines)[i], size)
    {
      hide Coherent, Within, InStep, Sound, CutAtPos, Resized, R.SetSize, R.Valid;
      AllInStepWhenCoherent(lines, scale, yrange, PixelRange(content));
      stride := size;
      ghost var was := lines;
      var i := 0;
      while i < |lines|
        invariant 0 <= i <= |lines| == |was| && AllInStep(was) && stride == size
        invariant AllCoherent(was, scale, yrange, PixelRange(content))
        invariant yautoscale ==> AllWithin(lines, yrange)
        invariant forall k | 0 <= k < i :: lines[k] == Resized(was[k], size)
        invariant forall k | 0 <= k < i ::
          Coherent(lines[k], scale, yrange, PixelRange(content)) <==> !CutAtPos(was[k], size)
        invariant forall k | i <= k < |lines| :: lines[k] == was[k]
      {
        ResizedCoherent(lines[i], size, scale, yrange, PixelRange(content));
        lines := lines[i := Resized(lines[i], size)];
        i := i + 1;
      }
    }

    /** `uber_graph_add_line` */
    method AddLine() returns (id: nat)
      requires Valid()
      modifies this`lines
      ensures Valid() && id == |lines| == |old(lines)| + 1 && lines[..id - 1] == old(lines)
      ensures lines[id - 1] == Line(R.Ring(R.Blanks(stride), 0), R.Ring(R.Blanks(stride), 0))
    {
      hide R.SetSize;
      BlankResized(stride);
      var ring := R.SetSize(R.New(), stride);
      assert Coherent(Line(ring, ring), scale, yrange, PixelRange(content));
      lines := lines + [Line(ring, ring)];
      id := |lines|;
    }
  }

  lemma BlankResized(size: nat)
    requires size > 0
    ensures R.SetSize(R.New(), size) == R.Ring(R.Blanks(size), 0)
  {
    hide R.Grow, R.Shrink;
    forall k | 0 <= k < size ensures R.SetSize(R.New(), size).buf[k] == R.NegInf && R.SetSize(R.New(), size).pos == 0 {
      if size > R.DEFAULT_SIZE {
        R.GrownAt(R.New(), size, k);
      } else if size < R.DEFAULT_SIZE {
        R.ShrunkAt(R.New(), size, k);
      }
    }
    assert R.SetSize(R.New(), size).buf[0] == R.NegInf;
    assert R.SetSize(R.New(), size).buf == R.Blanks(size);
  }

  lemma SpanIsPoint(begin: Val, end: real, vs: seq<Val>)
    requires Spans(begin, end, vs)
    ensures IsTop(end, vs) && end >= 0.0 && (begin == R.Fin(end) <==> AllZero(vs))
  {
  }

  /** Each line got its value in its raw ring. */
  predicate GotValues(before: seq<Line>, after: seq<Line>, values: seq<Val>) {
    && |before| == |after| == |values|
    && forall i | 0 <= i < |after| :: R.Valid(before[i].raw) && after[i].raw == R.Append(before[i].raw, values[i])
  }

  lemma AllInStepWhenCoherent(lines: seq<Line>, scale: Scale, values: Range, pixels: Range)
    requires AllCoherent(lines, scale, values, pixels)
    ensures AllInStep(lines)
  {
  }

  /** What appending to line `i` keeps of all lines. */
  lemma TickOne(before: seq<Line>, after: seq<Line>, i: nat, v: Val, scale: Scale, was: Range, now: Range,
                pixels: Range, autoscale: bool)
    requires i < |before| && AllInStep(before)
    requires after == before[i := Appended(before[i], v, Image(scale, now, pixels, v))]
    requires now == if autoscale then Extended(was, v) else was
    ensures AllInStep(after) && R.Valid(before[i].raw) && after[i].raw == R.Append(before[i].raw, v)
    ensures now == was && AllCoherent(before, scale, was, pixels) ==> AllCoherent(after, scale, now, pixels)
    ensures autoscale && Sound(was) && AllWithin(before, was) ==> Sound(now) && AllWithin(after, now)
  {
    hide Coherent, Within, R.Append, Extended, Sound;
    AppendedInStep(before[i], v, scale, now, pixels);
    if now == was && AllCoherent(before, scale, was, pixels) {
      AppendedCoherent(before[i], v, scale, now, pixels);
    }
    if autoscale && Sound(was) && AllWithin(before, was) {
      ExtendedContains(was, v);
      WithinLarger(before, was, now);
      AppendedWithin(before[i], v, Image(scale, now, pixels, v), now);
    }
  }
}
