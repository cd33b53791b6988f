/** What the IRFinder track computes for drawing: the data range found by
    autoscaling, the colour of a feature, the axis number format, the row
    geometry `draw` caches on every feature, the click test of `popupData`
    that reads it back, and the key `getFeatures` memoises on. */
module IRFinderRender {
  import opened Wrappers
  import opened JsMath
  import opened JsText
  import opened IRFinderParser
  import opened IRFinderLayout

  /** `this.dataRange`. A range set by hand in the configuration has no
      `maxRatio`. */
  datatype DataRange = DataRange(min: real, max: real, maxRatio: Option<real>)

  /** The warning names the track knows (`this.warnings`), in menu order;
      the warning colours are listed in the same order. */
  const WarningNames: seq<string> :=
    ["LowCover", "LowSplicing", "MinorIsoform", "NonUniformIntronCover", "-"]

  // -----------------------------------------------------------------------
  // Autoscale

  /** The `value` of every feature, as handed to the autoscaler. */
  function DepthValues(fs: seq<Feature>): (r: seq<Option<real>>)
    ensures |r| == |fs|
  {
    seq(|fs|, i requires 0 <= i < |fs| => if fs[i].value.Some? then Some(fs[i].value.value as real) else None)
  }

  /** The `IRratio` of every feature, as handed to the autoscaler. */
  function RatioValues(fs: seq<Feature>): (r: seq<Option<real>>)
    ensures |r| == |fs|
    ensures forall i :: 0 <= i < |fs| ==> r[i] == fs[i].irRatio
  {
    seq(|fs|, i requires 0 <= i < |fs| => fs[i].irRatio)
  }

  /** `doAutoscale` of the depth track. `scale` is the maximum the shared
      autoscaler reports for a list of values. An empty list gives the fixed
      range 0..1 with ratio maximum 1; otherwise the minimum stays 0, the
      maximum is the scaled depth and the ratio maximum is the scaled ratio,
      never below 0.01. */
  function DepthAutoscale(fs: seq<Feature>, scale: seq<Option<real>> -> real): (r: DataRange)
    ensures r.min == 0.0 && r.maxRatio.Some? && r.maxRatio.value >= 0.01
    ensures |fs| == 0 ==> r == DataRange(0.0, 1.0, Some(1.0))
    ensures |fs| > 0 ==> r.max == scale(DepthValues(fs))
    ensures |fs| > 0 ==> r.maxRatio.value == Max(scale(RatioValues(fs)), 0.01)
  {
    if |fs| == 0 then DataRange(0.0, 1.0, Some(1.0))
    else DataRange(0.0, scale(DepthValues(fs)), Some(Max(scale(RatioValues(fs)), 0.01)))
  }

  // -----------------------------------------------------------------------
  // Colour

  /** A colour as `getFeatureColor` returns it: a CSS string, an `rgb(...)`
      with integer channels, the `rgb(NaN,0,NaN)` a missing ratio produces,
      or `undefined`. */
  datatype Color = Css(name: string) | Rgb(red: int, green: int, blue: int) | RgbNaN | Undefined

  /** The two-segment ramp: black to red on [0, 0.5), red to blue on
      [0.5, 1]. Green is always 0; on the upper segment red and blue add up
      to 255; inside [0, 1] every channel is a byte. */
  function Ramp(v: real): (c: Color)
    ensures c.Rgb? && c.green == 0
    ensures v < 0.5 ==> c.blue == 0 && v * 510.0 <= c.red as real < v * 510.0 + 1.0
    ensures v >= 0.5 ==> c.red + c.blue == 255 && (v - 0.5) * 510.0 <= c.blue as real < (v - 0.5) * 510.0 + 1.0
    ensures 0.0 <= v <= 1.0 ==> 0 <= c.red <= 255 && 0 <= c.blue <= 255
  {
    if v < 0.5 then Rgb(Ceil(v * 255.0 * 2.0), 0, 0)
    else
      var c := Ceil((v - 0.5) * 255.0 * 2.0);
      Rgb(255 - c, 0, c)
  }

  /** The ramp's landmarks: 0 is black, 0.5 pure red, 1 pure blue. */
  lemma RampLandmarks()
    ensures Ramp(0.0) == Rgb(0, 0, 0)
    ensures Ramp(0.5) == Rgb(255, 0, 0)
    ensures Ramp(1.0) == Rgb(0, 0, 255)
  {
    assert Ceil(0.0) == 0;
    assert Ceil(255.0) == 255;
  }

  /** `IRratio / maxRatio`: NaN when either is missing; a zero divisor is
      taken as NaN too. */
  function Scaled(ratio: Option<real>, maxRatio: Option<real>): (r: Option<real>)
    ensures r.Some? <==> ratio.Some? && maxRatio.Some? && maxRatio.value != 0.0
    ensures r.Some? ==> r.value * maxRatio.value == ratio.value
  {
    if ratio.Some? && maxRatio.Some? && maxRatio.value != 0.0 then Some(ratio.value / maxRatio.value) else None
  }

  /** `getFeatureColor`: the track colour by default; by warnings, the
      colour at the position of the feature's warning among the known
      warnings (`undefined` for an unknown warning or a short colour list);
      otherwise the ramp over the ratio, divided by the ratio maximum when
      the mode's name contains "scaled". */
  function FeatureColor(colorBy: string, color: string, warningColors: seq<string>,
                        f: Feature, maxRatio: Option<real>): (c: Color)
    ensures colorBy == "default" ==> c == Css(color)
    ensures colorBy == "warnings" && f.warning !in WarningNames ==> c == Undefined
    ensures colorBy == "warnings" ==> forall k :: 0 <= k < |WarningNames| && f.warning == WarningNames[k] ==>
              c == (if k < |warningColors| then Css(warningColors[k]) else Undefined)
    ensures colorBy != "default" && colorBy != "warnings" ==>
              var v := if Includes(colorBy, "scaled") then Scaled(f.irRatio, maxRatio) else f.irRatio;
              (c == RgbNaN <==> v.None?) && (v.Some? ==> c == Ramp(v.value))
  {
    if colorBy == "default" then Css(color)
    else if colorBy == "warnings" then
      var k := FindIndex(WarningNames, f.warning);
      if 0 <= k < |warningColors| then Css(warningColors[k]) else Undefined
    else
      var v := if Includes(colorBy, "scaled") then Scaled(f.irRatio, maxRatio) else f.irRatio;
      if v.None? then RgbNaN else Ramp(v.value)
  }

  /** In the scaled ratio mode, a ratio between 0 and the ratio maximum is
      drawn with byte channels. */
  lemma ScaledColorInGamut(colorBy: string, color: string, warningColors: seq<string>,
                           f: Feature, maxRatio: real)
    requires colorBy != "default" && colorBy != "warnings" && Includes(colorBy, "scaled")
    requires maxRatio > 0.0 && f.irRatio.Some? && 0.0 <= f.irRatio.value <= maxRatio
    ensures var c := FeatureColor(colorBy, color, warningColors, f, Some(maxRatio));
      c.Rgb? && c.green == 0 && 0 <= c.red <= 255 && 0 <= c.blue <= 255
  {
    QuotientWithin(f.irRatio.value, maxRatio, 1.0);
  }

  // -----------------------------------------------------------------------
  // Axis numbers

  /** `number2Text`: the floor of the number, or the floor of its
      thousandth followed by "K" once the floor exceeds 999. */
  function Number2Text(n: real): (s: string)
    ensures |s| >= 1
  {
    var t := Floor(n);
    if t > 999 then IntToString(Floor(n / 1000.0)) + "K" else IntToString(t)
  }

  /** The text reads back as the floor of the number, in thousands when it
      carries the "K" suffix, which it does exactly above 999. */
  lemma Number2TextReadsBack(n: real)
    ensures var s := Number2Text(n);
      (s[|s| - 1] == 'K' <==> Floor(n) > 999) &&
      (Floor(n) <= 999 ==> ParseInt(s) == Some(Floor(n))) &&
      (Floor(n) > 999 ==> ParseInt(s[..|s| - 1]) == Some(Floor(n) / 1000) && ParseInt(s) == Some(Floor(n) / 1000))
  {
    var s := Number2Text(n);
    var t := Floor(n);
    if t > 999 {
      FloorDivThousand(n);
      var q := Floor(n / 1000.0);
      ParseIntOfIntToString(q, "K");
      ParseIntOfIntToString(q, "");
      assert s[..|s| - 1] == IntToString(q);
      assert IntToString(q) + "" == IntToString(q);
    } else {
      ParseIntOfIntToString(t, "");
      assert IntToString(t) + "" == IntToString(t);
      LastIsDigit(t);
    }
  }

  /** An integer's text ends in a digit. */
  lemma LastIsDigit(i: int)
    ensures var s := IntToString(i); IsDigit(s[|s| - 1])
  {
    var s := IntToString(i);
    var n: nat := if i >= 0 then i else -i;
    var ds := NatToString(n);
    assert s[|s| - 1] == ds[|ds| - 1];
  }

  /** The distance between the depth axis ticks: ten times the range over
      the lane height, rounded up. With a positive lane height it is at
      least 1 exactly when the range is not empty. */
  function DepthTickStep(range: DataRange, rowHeight: real): (n: int)
    requires rowHeight > 0.0
    ensures n >= 1 <==> range.max > range.min
  {
    var x := (range.max - range.min) * 10.0 / rowHeight;
    assert x * rowHeight == (range.max - range.min) * 10.0;
    Ceil(x)
  }

  /** The values the depth axis labels from `p` on, while `p` is below
      `top + n`: they start at `p`, each is the one before plus `n`, all lie
      below `top + n`, and the last reaches `top`. */
  function DepthTicks(p: real, top: real, n: int): (ts: seq<real>)
    requires n >= 1
    ensures (|ts| > 0) <==> p < top + n as real
    ensures |ts| > 0 ==> ts[0] == p && ts[|ts| - 1] >= top
    ensures forall k :: 0 <= k < |ts| ==> ts[k] < top + n as real
    ensures forall k :: 0 < k < |ts| ==> ts[k] == ts[k - 1] + n as real
    decreases if p < top + n as real then Ceil(top + n as real - p) else 0
  {
    if p < top + n as real then
      var rest := DepthTicks(p + n as real, top, n);
      var ts := [p] + rest;
      assert forall k :: 0 < k < |ts| ==> ts[k] == rest[k - 1];
      ts
    else []
  }

  /** The tick loop of the depth track's `_paintAxis` for one row (every
      row repeats it): from the range minimum, while the tick is below
      `max + n`, move on by `n`. An empty range has no tick. */
  method DepthAxisTicks(range: DataRange, rowHeight: real) returns (ticks: seq<real>)
    requires rowHeight > 0.0
    ensures var n := DepthTickStep(range, rowHeight);
      ticks == (if n >= 1 then DepthTicks(range.min, range.max, n) else [])
  {
    var n := DepthTickStep(range, rowHeight);
    var p := range.min;
    ticks := [];
    while p < range.max + n as real
      invariant n >= 1 || (p == range.min && ticks == [])
      invariant n >= 1 ==> ticks + DepthTicks(p, range.max, n) == DepthTicks(range.min, range.max, n)
      decreases if p < range.max + n as real then Ceil(range.max + n as real - p) else 0
    {
      assert n >= 1;
      var q := p + n as real;
      assert (if q < range.max + n as real then Ceil(range.max + n as real - q) else 0) <
             Ceil(range.max + n as real - p);
      assert (ticks + [p]) + DepthTicks(q, range.max, n) == DepthTicks(range.min, range.max, n) by {
        DepthTicksUnfold(ticks, p, range.max, n);
      }
      ticks := ticks + [p];
      p := q;
    }
    if n >= 1 {
      assert ticks + [] == ticks;
    }
  }

  /** One turn of the depth tick loop moves the current tick to the
      output. */
  lemma DepthTicksUnfold(done: seq<real>, p: real, top: real, n: int)
    requires n >= 1 && p < top + n as real
    ensures done + DepthTicks(p, top, n) == (done + [p]) + DepthTicks(p + n as real, top, n)
  {
    assert DepthTicks(p, top, n) == [p] + DepthTicks(p + n as real, top, n);
  }

  // -----------------------------------------------------------------------
  // Row geometry written by `draw`

  /** The frame `draw` lays a feature out in: the visible base-pair window,
      the pixel height of one row's plot, the margin between rows and the
      data range. */
  datatype Frame = Frame(bpStart: real, bpEnd: real, rowPixels: real, margin: real, range: DataRange)

  /** The visible window a drawing request asks for. */
  datatype View = View(bpStart: real, bpPerPixel: real, pixelWidth: real, pixelHeight: real)

  /** The frame of one `draw` call: the plot height is the request's height
      shared among the rows, less the margin, and never more than the row
      height less the margin; the window ends one base after the last
      pixel. */
  function FrameOf(view: View, maxRow: nat, rowHeight: real, margin: real, range: DataRange): (fr: Frame)
    requires maxRow >= 1
    ensures fr.bpStart == view.bpStart && fr.bpEnd == view.bpStart + view.pixelWidth * view.bpPerPixel + 1.0
    ensures fr.margin == margin && fr.range == range
    ensures fr.rowPixels <= rowHeight - margin
    ensures fr.rowPixels == rowHeight - margin || fr.rowPixels == view.pixelHeight / maxRow as real - margin
  {
    var ph := view.pixelHeight / maxRow as real - margin;
    Frame(view.bpStart, view.bpStart + view.pixelWidth * view.bpPerPixel + 1.0,
          if ph > rowHeight - margin then rowHeight - margin else ph, margin, range)
  }

  /** The `yScale` closure of `draw` for a feature on `row`; NaN (`None`)
      when the row is undefined or the range is empty. */
  function YScale(fr: Frame, row: Option<int>, v: real): (r: Option<real>)
    ensures r.Some? <==> row.Some? && fr.range.max != fr.range.min
  {
    if row.None? || fr.range.max == fr.range.min then None
    else Some(fr.margin + row.value as real * (fr.rowPixels + fr.margin)
              + ((fr.range.max - v) / (fr.range.max - fr.range.min)) * fr.rowPixels)
  }

  /** `y - margin` where `y` may be NaN. */
  function LessMargin(y: Option<real>, margin: real): Option<real> {
    if y.Some? then Some(y.value - margin) else None
  }

  /** The box `draw` caches on a feature: from the row's top, at
      `row * (plot height + margin)`, down to where the value 0 sits, which
      is one plot height lower when the range starts at 0, at most that when
      it starts below 0, and beyond the plot when it starts above 0. */
  function RowBox(fr: Frame, row: Option<int>): (b: YBox)
    ensures b.row == row
    ensures b.start.Some? <==> row.Some? && fr.range.max != fr.range.min
    ensures b.end.Some? <==> b.start.Some?
    ensures b.start.Some? ==> b.start.value == row.value as real * (fr.rowPixels + fr.margin)
    ensures b.start.Some? && fr.range.min == 0.0 ==> b.end.value == b.start.value + fr.rowPixels
    ensures b.start.Some? && fr.range.min <= 0.0 < fr.range.max && fr.rowPixels >= 0.0 ==>
      b.start.value <= b.end.value <= b.start.value + fr.rowPixels
  {
    var b := YBox(LessMargin(YScale(fr, row, fr.range.max), fr.margin),
                  LessMargin(YScale(fr, row, 0.0), fr.margin), row);
    if row.None? || fr.range.max == fr.range.min then b
    else
      var top := row.value as real * (fr.rowPixels + fr.margin);
      var share := ((fr.range.max - 0.0) / (fr.range.max - fr.range.min)) * fr.rowPixels;
      assert b.start.Some? && b.start.value == top by {
        var z := (fr.range.max - fr.range.max) / (fr.range.max - fr.range.min);
        assert z == 0.0;
        assert YScale(fr, row, fr.range.max).value == fr.margin + top + z * fr.rowPixels;
      }
      assert b.end.Some? && b.end.value == top + share by {
        assert YScale(fr, row, 0.0).value == fr.margin + top + share;
      }
      assert fr.range.min == 0.0 ==> share == fr.rowPixels by {
        if fr.range.min == 0.0 {
          assert (fr.range.max - 0.0) / (fr.range.max - fr.range.min) == 1.0;
        }
      }
      if fr.range.min <= 0.0 < fr.range.max && fr.rowPixels >= 0.0 then
        ZeroWithinPlot(fr.range.min, fr.range.max, fr.rowPixels);
        b
      else b
  }

  /** The value 0 sits within the plot when the range starts at or below
      0: its offset from the top is a share of the plot height. */
  lemma ZeroWithinPlot(min: real, max: real, ph: real)
    requires min <= 0.0 < max && ph >= 0.0
    ensures 0.0 <= ((max - 0.0) / (max - min)) * ph <= ph
  {
    var q := (max - 0.0) / (max - min);
    QuotientWithin(max - 0.0, max - min, 1.0);
    assert (1.0 - q) * ph >= 0.0;
  }

  /** `draw` passes over a feature that ends before the window or starts
      after it; a NaN coordinate never causes a skip. */
  predicate Skipped(f: Feature, fr: Frame) {
    (f.end.Some? && (f.end.value as real) < fr.bpStart) || (f.start.Some? && (f.start.value as real) > fr.bpEnd)
  }

  /** What `draw` leaves on one feature: a skipped feature keeps whatever
      box it had; a drawn one gets its row's box. */
  function Drawn(f: Feature, fr: Frame): (g: Feature)
    ensures g == f.(y := g.y)
    ensures Skipped(f, fr) ==> g == f
    ensures !Skipped(f, fr) ==> g.y == Some(RowBox(fr, f.row))
  {
    if Skipped(f, fr) then f else f.(y := Some(RowBox(fr, f.row)))
  }

  /** The list after `draw` has passed over all of it. */
  function DrawAll(fs: seq<Feature>, fr: Frame): (r: seq<Feature>)
    ensures |r| == |fs|
    ensures forall i :: 0 <= i < |fs| ==> r[i] == Drawn(fs[i], fr)
  {
    seq(|fs|, i requires 0 <= i < |fs| => Drawn(fs[i], fr))
  }

  // -----------------------------------------------------------------------
  // Click test of `popupData`

  /** The strict test of `popupData`: the feature has a box, the genomic
      position lies strictly inside its span and the click height strictly
      inside its box. Every comparison with NaN fails. */
  predicate Hit(f: Feature, x: real, y: real) {
    f.y.Some? && f.start.Some? && f.end.Some? &&
    (f.start.value as real) < x && x < (f.end.value as real) &&
    f.y.value.start.Some? && f.y.value.start.value < y &&
    f.y.value.end.Some? && y < f.y.value.end.value
  }

  /** `features.find(...)`: the index of the first feature hit, if any. */
  function FindHit(fs: seq<Feature>, x: real, y: real): (r: Option<nat>)
    ensures r.Some? ==> r.value < |fs| && Hit(fs[r.value], x, y)
    ensures r.Some? ==> forall k :: 0 <= k < r.value ==> !Hit(fs[k], x, y)
    ensures r.None? ==> forall k :: 0 <= k < |fs| ==> !Hit(fs[k], x, y)
    decreases |fs|
  {
    if |fs| == 0 then None
    else if Hit(fs[0], x, y) then Some(0)
    else
      var r := FindHit(fs[1..], x, y);
      if r.Some? then
        assert forall k :: 1 <= k < r.value + 1 ==> fs[k] == fs[1..][k - 1];
        Some(r.value + 1)
      else
        assert forall k :: 1 <= k < |fs| ==> fs[k] == fs[1..][k - 1];
        None
  }

  /** Every feature carries all the parsed columns. */
  predicate AllParsed(fs: seq<Feature>) {
    forall k :: 0 <= k < |fs| ==> |fs[k].tokens| == |Columns|
  }

  /** `popupData`: the popup listing of the first feature hit at the
      genomic position `x` and the click height less the margin, or nothing
      when no feature is hit or the view holds no features. */
  function PopupAt(cached: Option<seq<Feature>>, x: real, clickY: real, margin: real): (r: seq<Field>)
    requires cached.Some? ==> AllParsed(cached.value)
    ensures cached.None? ==> r == []
    ensures cached.Some? ==> var h := FindHit(cached.value, x, clickY - margin);
      (h.None? ==> r == []) && (h.Some? ==> r == PopupData(cached.value[h.value]))
  {
    if cached.None? then []
    else
      var h := FindHit(cached.value, x, clickY - margin);
      if h.None? then [] else PopupData(cached.value[h.value])
  }

  // -----------------------------------------------------------------------
  // Draw / click round trip

  /** Of two features on the same row, the earlier ends strictly before the
      later starts. */
  predicate Stacked(ds: seq<Feature>) {
    forall i, j | 0 <= i < j < |ds| && ds[i].row == ds[j].row ::
      ds[i].end.Some? && ds[j].start.Some? && ds[i].end.value < ds[j].start.value
  }

  /** The boxes of two different rows do not overlap. */
  lemma RowsApart(a: int, b: int, ph: real, m: real)
    requires 0 <= a < b && ph >= 0.0 && m >= 0.0
    ensures a as real * (ph + m) + ph <= b as real * (ph + m)
  {
    var d := (b - a) as real;
    assert d >= 1.0;
    assert d * (ph + m) >= ph + m by {
      assert (d - 1.0) * (ph + m) >= 0.0;
    }
    assert b as real * (ph + m) == a as real * (ph + m) + d * (ph + m);
  }

  /** Two drawn features cannot both be hit by one click when they share
      no row, or when the first ends before the second starts. */
  lemma NotBothHit(a: Feature, b: Feature, fr: Frame, x: real, y: real)
    requires a.row.Some? && a.row.value >= 0 && b.row.Some? && b.row.value >= 0
    requires !Skipped(a, fr) && !Skipped(b, fr)
    requires a.row == b.row ==> a.end.Some? && b.start.Some? && a.end.value < b.start.value
    requires fr.rowPixels > 0.0 && fr.margin >= 0.0 && fr.range.min <= 0.0 < fr.range.max
    ensures !(Hit(Drawn(a, fr), x, y) && Hit(Drawn(b, fr), x, y))
  {
    var ra, rb := a.row.value, b.row.value;
    var ph, m := fr.rowPixels, fr.margin;
    var ba, bb := RowBox(fr, a.row), RowBox(fr, b.row);
    assert ba.start.value == ra as real * (ph + m) && ba.end.value <= ba.start.value + ph;
    assert bb.start.value == rb as real * (ph + m) && bb.end.value <= bb.start.value + ph;
    if ra < rb {
      RowsApart(ra, rb, ph, m);
    } else if rb < ra {
      RowsApart(rb, ra, ph, m);
    }
  }

  /** A click inside the window and strictly inside the box and span `draw`
      gave a feature finds that feature: no earlier feature is hit, because
      one outside the window has its span outside it too, an earlier one on
      the same row ends before this one starts, and one on another row has
      a box that does not overlap this one. */
  lemma ClickFindsDrawn(ks: seq<Feature>, fr: Frame, i: nat, x: real, clickY: real)
    requires Stacked(ks)
    requires forall k :: 0 <= k < |ks| ==> ks[k].row.Some? && ks[k].row.value >= 0
    requires fr.rowPixels > 0.0 && fr.margin >= 0.0 && fr.range.min <= 0.0 < fr.range.max
    requires i < |ks| && fr.bpStart <= x <= fr.bpEnd
    requires ks[i].start.Some? && ks[i].end.Some?
    requires (ks[i].start.value as real) < x < (ks[i].end.value as real)
    requires var b := RowBox(fr, ks[i].row);
      b.start.value < clickY - fr.margin < b.end.value
    ensures FindHit(DrawAll(ks, fr), x, clickY - fr.margin) == Some(i)
  {
    var ds := DrawAll(ks, fr);
    var y := clickY - fr.margin;
    assert Hit(Drawn(ks[i], fr), x, y);
    EarlierMissed(ks, fr, i, x, y);
    assert forall k :: 0 <= k <= i ==> ds[k] == Drawn(ks[k], fr);
    FirstHitAt(ds, x, y, i);
  }

  /** When the drawn `i`-th feature is hit inside the window, no earlier
      feature is: one `draw` skipped lies outside the window, one on the
      same row ends before it starts, and one on another row has a box
      apart from its box. */
  lemma EarlierMissed(ks: seq<Feature>, fr: Frame, i: nat, x: real, y: real)
    requires Stacked(ks)
    requires forall k :: 0 <= k < |ks| ==> ks[k].row.Some? && ks[k].row.value >= 0
    requires fr.rowPixels > 0.0 && fr.margin >= 0.0 && fr.range.min <= 0.0 < fr.range.max
    requires i < |ks| && fr.bpStart <= x <= fr.bpEnd
    requires Hit(Drawn(ks[i], fr), x, y)
    ensures forall k :: 0 <= k < i ==> !Hit(Drawn(ks[k], fr), x, y)
  {
    forall k | 0 <= k < i
      ensures !Hit(Drawn(ks[k], fr), x, y)
    {
      if Skipped(ks[k], fr) {
        SkippedNeverHitInWindow(Drawn(ks[k], fr), fr, x, y);
      } else {
        NotBothHit(ks[k], ks[i], fr, x, y);
      }
    }
  }

  /** A feature `draw` passes over lies wholly outside the window, so a
      click inside the window never hits it, whatever box it kept. */
  lemma SkippedNeverHitInWindow(f: Feature, fr: Frame, x: real, y: real)
    requires Skipped(f, fr) && fr.bpStart <= x <= fr.bpEnd
    ensures !Hit(f, x, y)
  {
  }

  /** With a range starting above 0 the box reaches below its row: on a
      plot 10 high with no margin and the range 1 to 2, the boxes of rows 0
      and 1 both hold the height 15, which lies in row 1's plot, so a click
      there on two features spanning 0 to 10 finds the one on row 0. */
  lemma PositiveMinRowsOverlap(f: Feature)
    requires f.start == Some(0) && f.end == Some(10)
    ensures var fr := Frame(0.0, 100.0, 10.0, 0.0, DataRange(1.0, 2.0, None));
      var ds := DrawAll([f.(row := Some(0)), f.(row := Some(1))], fr);
      1.0 * (fr.rowPixels + fr.margin) < 15.0 < 1.0 * (fr.rowPixels + fr.margin) + fr.rowPixels &&
      Hit(ds[0], 5.0, 15.0) && Hit(ds[1], 5.0, 15.0) && FindHit(ds, 5.0, 15.0) == Some(0)
  {
    var fr := Frame(0.0, 100.0, 10.0, 0.0, DataRange(1.0, 2.0, None));
    var ds := DrawAll([f.(row := Some(0)), f.(row := Some(1))], fr);
    assert RowBox(fr, Some(0)) == YBox(Some(0.0), Some(20.0), Some(0));
    assert RowBox(fr, Some(1)) == YBox(Some(10.0), Some(30.0), Some(1));
    assert Hit(ds[0], 5.0, 15.0);
  }

  /** The search finds `i` when `i` is hit and no earlier feature is. */
  lemma FirstHitAt(ds: seq<Feature>, x: real, y: real, i: nat)
    requires i < |ds| && Hit(ds[i], x, y)
    requires forall k :: 0 <= k < i ==> !Hit(ds[k], x, y)
    ensures FindHit(ds, x, y) == Some(i)
  {
    var h := FindHit(ds, x, y);
    assert h.Some?;
    assert !(h.value < i) && !(h.value > i);
  }

  /** The kept features of a pass, each with its row, are stacked whenever
      the lanes are disjoint, and every kept row is a lane index. */
  lemma {:induction false} KeptStacked(fs: seq<Feature>, rows: seq<int>, filters: Filters)
    requires |rows| == |fs| && LaneSharersDisjoint(fs, rows, filters)
    requires forall i :: 0 <= i < |fs| && Passes(fs[i], filters) ==> rows[i] >= 0
    ensures var ks := KeptWithRows(fs, rows, filters);
      Stacked(ks) && forall k :: 0 <= k < |ks| ==> ks[k].row.Some? && ks[k].row.value >= 0
    decreases |fs|
  {
    if |fs| > 0 {
      var ks := KeptWithRows(fs, rows, filters);
      var rest := KeptWithRows(fs[1..], rows[1..], filters);
      assert forall i :: 0 <= i < |fs| - 1 ==> fs[1..][i] == fs[i + 1] && rows[1..][i] == rows[i + 1];
      KeptStacked(fs[1..], rows[1..], filters);
      if Passes(fs[0], filters) {
        var head := fs[0].(row := Some(rows[0]));
        assert ks == [head] + rest;
        forall i | 0 <= i < |fs| - 1 && Passes(fs[1..][i], filters) && rows[1..][i] == rows[0]
          ensures Before(fs[0].end, fs[1..][i].start)
        {
          assert Passes(fs[i + 1], filters) && rows[0] == rows[i + 1];
        }
        KeptAfter(fs[1..], rows[1..], filters, rows[0], fs[0].end);
        forall i, j | 0 <= i < j < |ks| && ks[i].row == ks[j].row
          ensures ks[i].end.Some? && ks[j].start.Some? && ks[i].end.value < ks[j].start.value
        {
          assert ks[j] == rest[j - 1];
          if i > 0 {
            assert ks[i] == rest[i - 1];
          } else {
            assert Before(fs[0].end, rest[j - 1].start);
          }
        }
      } else {
        assert ks == rest;
      }
    }
  }

  /** `e < s` for two coordinates that may be NaN. */
  predicate Before(e: Option<int>, s: Option<int>) {
    e.Some? && s.Some? && e.value < s.value
  }

  /** When every kept feature on row `r` starts after `e`, so does every
      kept feature with row `r` in the kept list. */
  lemma {:induction false} KeptAfter(fs: seq<Feature>, rows: seq<int>, filters: Filters, r: int, e: Option<int>)
    requires |rows| == |fs|
    requires forall i :: 0 <= i < |fs| && Passes(fs[i], filters) && rows[i] == r ==> Before(e, fs[i].start)
    ensures forall k :: 0 <= k < |KeptWithRows(fs, rows, filters)| && KeptWithRows(fs, rows, filters)[k].row == Some(r) ==>
      Before(e, KeptWithRows(fs, rows, filters)[k].start)
    decreases |fs|
  {
    if |fs| > 0 {
      var ks := KeptWithRows(fs, rows, filters);
      var rest := KeptWithRows(fs[1..], rows[1..], filters);
      assert forall i :: 0 <= i < |fs| - 1 ==> fs[1..][i] == fs[i + 1] && rows[1..][i] == rows[i + 1];
      KeptAfter(fs[1..], rows[1..], filters, r, e);
      var head := if Passes(fs[0], filters) then [fs[0].(row := Some(rows[0]))] else [];
      assert ks == head + rest;
      forall k | 0 <= k < |ks| && ks[k].row == Some(r)
        ensures Before(e, ks[k].start)
      {
        if k >= |head| {
          var j := k - |head|;
          assert ks[k] == rest[j];
          assert 0 <= j < |rest| && rest[j].row == Some(r);
          assert Before(e, rest[j].start);
        } else {
          assert ks[k] == fs[0].(row := Some(rows[0]));
          assert Passes(fs[0], filters) && rows[0] == r;
        }
      }
    }
  }

  /** The popup listing depends on a feature's tokens alone. */
  lemma PopupSameTokens(f: Feature, g: Feature)
    requires |f.tokens| == |Columns| && f.tokens == g.tokens
    ensures PopupData(f) == PopupData(g)
  {
    var a, b := PopupData(f), PopupData(g);
    assert |a| == |b|;
    forall k | 0 <= k < |a|
      ensures a[k] == b[k]
    {
      if k < 4 {
        assert a[k] == Field(Columns[k], f.tokens[k]);
      } else {
        assert a[k] == Field(Columns[k + 1], f.tokens[k + 1]);
      }
    }
  }

  /** Kept features carry the tokens they were parsed with. */
  lemma {:induction false} KeptParsed(fs: seq<Feature>, rows: seq<int>, filters: Filters)
    requires |rows| == |fs| && AllParsed(fs)
    ensures AllParsed(KeptWithRows(fs, rows, filters))
    decreases |fs|
  {
    if |fs| > 0 {
      assert AllParsed(fs[1..]) by {
        assert forall k :: 0 <= k < |fs| - 1 ==> fs[1..][k] == fs[k + 1];
      }
      KeptParsed(fs[1..], rows[1..], filters);
    }
  }

  /** After a pass over parsed forward spans, the shown features are
      parsed, stacked, and each sits on a lane. */
  lemma ShownStacked(fs: seq<Feature>, filters: Filters, shown: seq<Feature>)
    requires AllParsed(fs) && forall k :: 0 <= k < |fs| ==> ForwardSpan(fs[k])
    requires shown == Shown(Annotate(fs, LayoutOf(fs, filters).rows))
    ensures Stacked(shown) && AllParsed(shown)
    ensures forall k :: 0 <= k < |shown| ==> shown[k].row.Some? && shown[k].row.value >= 0
  {
    var l := LayoutOf(fs, filters);
    LayoutShape(fs, filters);
    LanesDisjoint(fs, filters);
    ShownAreKept(fs, l.rows, filters);
    KeptStacked(fs, l.rows, filters);
    KeptParsed(fs, l.rows, filters);
  }

  /** A click inside the window and strictly inside the box and span of a
      drawn, stacked, parsed feature pops up that feature's listing. */
  lemma ClickShowsPopup(ks: seq<Feature>, fr: Frame, i: nat, x: real, clickY: real)
    requires Stacked(ks) && AllParsed(ks)
    requires forall k :: 0 <= k < |ks| ==> ks[k].row.Some? && ks[k].row.value >= 0
    requires fr.rowPixels > 0.0 && fr.margin >= 0.0 && fr.range.min <= 0.0 < fr.range.max
    requires i < |ks| && fr.bpStart <= x <= fr.bpEnd
    requires ks[i].start.Some? && ks[i].end.Some?
    requires (ks[i].start.value as real) < x < (ks[i].end.value as real)
    requires var b := RowBox(fr, ks[i].row);
      b.start.value < clickY - fr.margin < b.end.value
    ensures AllParsed(DrawAll(ks, fr))
    ensures PopupAt(Some(DrawAll(ks, fr)), x, clickY, fr.margin) == PopupData(ks[i])
  {
    var ds := DrawAll(ks, fr);
    assert FindHit(ds, x, clickY - fr.margin) == Some(i) by {
      ClickFindsDrawn(ks, fr, i, x, clickY);
    }
    assert AllParsed(ds) && PopupData(ds[i]) == PopupData(ks[i]) by {
      assert forall k :: 0 <= k < |ds| ==> ds[k].tokens == ks[k].tokens;
      PopupSameTokens(ks[i], ds[i]);
    }
    PopupAtHit(ds, x, clickY, fr.margin, i);
  }

  /** The whole round trip: filter a list of parsed forward spans, draw the
      shown features, then click inside the window and strictly inside the
      box and span of the `i`-th shown feature; the popup lists that
      feature, even when other shown features lie outside the window and
      keep a stale box. */
  lemma FilterDrawClick(fs: seq<Feature>, filters: Filters, shown: seq<Feature>, fr: Frame,
                        i: nat, x: real, clickY: real)
    requires AllParsed(fs) && forall k :: 0 <= k < |fs| ==> ForwardSpan(fs[k])
    requires shown == Shown(Annotate(fs, LayoutOf(fs, filters).rows))
    requires fr.rowPixels > 0.0 && fr.margin >= 0.0 && fr.range.min <= 0.0 < fr.range.max
    requires i < |shown| && fr.bpStart <= x <= fr.bpEnd
    requires shown[i].start.Some? && shown[i].end.Some? && shown[i].row.Some?
    requires (shown[i].start.value as real) < x < (shown[i].end.value as real)
    requires var b := RowBox(fr, shown[i].row);
      b.start.value < clickY - fr.margin < b.end.value
    ensures AllParsed(DrawAll(shown, fr))
    ensures PopupAt(Some(DrawAll(shown, fr)), x, clickY, fr.margin) == PopupData(shown[i])
  {
    ShownStacked(fs, filters, shown);
    ClickShowsPopup(shown, fr, i, x, clickY);
  }

  /** The popup of a click that hits the `i`-th feature first lists it. */
  lemma PopupAtHit(ds: seq<Feature>, x: real, clickY: real, margin: real, i: nat)
    requires AllParsed(ds) && FindHit(ds, x, clickY - margin) == Some(i)
    ensures i < |ds| && PopupAt(Some(ds), x, clickY, margin) == PopupData(ds[i])
  {
  }

  // -----------------------------------------------------------------------
  // Request key of `getFeatures`

  /** The memo key `chr + "-" + start + ":" + end`. */
  function RequestKey(chr: string, start: int, end: int): (k: string)
    ensures |k| >= 4
  {
    chr + "-" + IntToString(start) + ":" + IntToString(end)
  }

  /** Digit runs after the last separator split text uniquely. */
  lemma {:induction false} SplitAtSeparator(a1: string, d1: string, a2: string, d2: string, sep: char)
    requires !IsDigit(sep) && AllDigits(d1) && AllDigits(d2)
    requires a1 + [sep] + d1 == a2 + [sep] + d2
    ensures a1 == a2 && d1 == d2
  {
    var t := a1 + [sep] + d1;
    SeparatorPosition(a1, d1, sep);
    SeparatorPosition(a2, d2, sep);
    assert |a1| == |a2|;
    assert a1 == t[..|a1|] && a2 == t[..|a2|];
    assert d1 == t[|a1| + 1..] && d2 == t[|a2| + 1..];
  }

  /** In `a + [sep] + d` with `d` all digits, the separator sits at `|a|`
      and only digits follow it. */
  lemma SeparatorPosition(a: string, d: string, sep: char)
    requires AllDigits(d)
    ensures var t := a + [sep] + d;
      t[|a|] == sep && forall k :: |a| < k < |t| ==> IsDigit(t[k])
  {
    var t := a + [sep] + d;
    assert forall k :: |a| < k < |t| ==> t[k] == d[k - |a| - 1];
  }

  /** Texts of non-negative integers are digit runs. */
  lemma NonNegativeDigits(i: int)
    requires i >= 0
    ensures AllDigits(IntToString(i))
  {
  }

  /** For non-negative coordinates the key identifies the region: the
      memo refetches whenever the region changes. */
  lemma RequestKeyInjective(c1: string, s1: int, e1: int, c2: string, s2: int, e2: int)
    requires s1 >= 0 && e1 >= 0 && s2 >= 0 && e2 >= 0
    ensures RequestKey(c1, s1, e1) == RequestKey(c2, s2, e2) <==> (c1 == c2 && s1 == s2 && e1 == e2)
  {
    if RequestKey(c1, s1, e1) == RequestKey(c2, s2, e2) {
      NonNegativeDigits(s1);
      NonNegativeDigits(s2);
      NonNegativeDigits(e1);
      NonNegativeDigits(e2);
      var a1, a2 := c1 + "-" + IntToString(s1), c2 + "-" + IntToString(s2);
      assert RequestKey(c1, s1, e1) == a1 + [':'] + IntToString(e1);
      assert RequestKey(c2, s2, e2) == a2 + [':'] + IntToString(e2);
      SplitAtSeparator(a1, IntToString(e1), a2, IntToString(e2), ':');
      assert a1 == c1 + ['-'] + IntToString(s1);
      assert a2 == c2 + ['-'] + IntToString(s2);
      SplitAtSeparator(c1, IntToString(s1), c2, IntToString(s2), '-');
      IntToStringInjective(s1, s2);
      IntToStringInjective(e1, e2);
    }
  }

  /** A negative start makes the key ambiguous: two different regions
      share a key, and the second request would reuse the first one's
      features. */
  lemma RequestKeyNegativeStartCollides()
    ensures RequestKey("a", -1, 5) == RequestKey("a-", 1, 5)
  {
    assert IntToString(-1) == "-1";
    assert IntToString(1) == "1";
  }
}
