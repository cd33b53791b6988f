/** The IR-ratio variant of the IRFinder track: its autoscale, the ticks of
    its axis, and the extent, height and label of the bar it draws for a
    feature. */
module IRratio {
  import opened Wrappers
  import opened JsMath
  import opened JsText
  import opened IRFinderParser
  import opened IRFinderRender

  /** `doAutoscale` of the ratio track: the fixed range 0..1 for an empty
      list; otherwise the scaled ratio maximum, never below 0.01. The ratio
      maximum always equals the maximum and the minimum stays 0. */
  function RatioAutoscale(fs: seq<Feature>, scale: seq<Option<real>> -> real): (r: DataRange)
    ensures r.min == 0.0 && r.max >= 0.01 && r.maxRatio == Some(r.max)
    ensures |fs| == 0 ==> r == DataRange(0.0, 1.0, Some(1.0))
    ensures |fs| > 0 ==> r.max == Max(scale(RatioValues(fs)), 0.01)
  {
    if |fs| == 0 then DataRange(0.0, 1.0, Some(1.0))
    else
      var m := Max(scale(RatioValues(fs)), 0.01);
      DataRange(0.0, m, Some(m))
  }

  // -----------------------------------------------------------------------
  // Axis ticks

  /** The distance between ticks: a fifth of the range, at least 0.01. */
  function TickStep(range: DataRange): (n: real)
    ensures n >= 0.01 && n * 5.0 >= range.max - range.min
    ensures n == 0.01 || n * 5.0 == range.max - range.min
  {
    Max((range.max - range.min) / 5.0, 0.01)
  }

  /** `q` is a whole number of hundredths. */
  predicate Hundredths(q: real) {
    (q * 100.0).Floor as real == q * 100.0
  }

  /** The tick after `p`: `p + n` rounded to hundredths. It lies strictly
      above `p` and within half a hundredth of `p + n`. */
  function NextTick(p: real, n: real): (q: real)
    requires n >= 0.01
    ensures p < q && Hundredths(q)
    ensures p + n - 0.005 < q <= p + n + 0.005
  {
    var k := Round((p + n) * 100.0);
    assert (k as real / 100.0) * 100.0 == k as real;
    k as real / 100.0
  }

  /** Bound on the ticks still to come from `p`: the hundredths left up to
      1, plus one. */
  function TickBudget(p: real): nat {
    if p <= 1.0 then 101 - Floor(100.0 * p) else 0
  }

  /** Each tick at or below 1 uses up at least one hundredth of the
      budget. */
  lemma NextTickSpends(p: real, n: real)
    requires n >= 0.01 && p <= 1.0
    ensures TickBudget(NextTick(p, n)) < TickBudget(p)
  {
    var q := NextTick(p, n);
    var k := Round((p + n) * 100.0);
    assert q * 100.0 == k as real;
    assert k as real > 100.0 * p;
    assert Floor(100.0 * q) == k;
    assert Floor(100.0 * p) < k;
  }

  /** The values the axis labels, from `p` on, while `p` is at most
      `top + n` and at most 1. They start at `p`, increase strictly, are
      whole hundredths after the first, and their number is bounded by the
      budget. */
  function Ticks(p: real, top: real, n: real): (ts: seq<real>)
    requires n >= 0.01
    ensures (|ts| > 0) <==> (p <= top + n && p <= 1.0)
    ensures |ts| > 0 ==> ts[0] == p
    ensures |ts| <= TickBudget(p)
    ensures forall k :: 0 <= k < |ts| ==> p <= ts[k] <= 1.0 && ts[k] <= top + n
    ensures forall k :: 0 < k < |ts| ==> Hundredths(ts[k])
    ensures forall k, m :: 0 <= k < m < |ts| ==> ts[k] < ts[m]
    decreases TickBudget(p)
  {
    if p <= top + n && p <= 1.0 then
      var q := NextTick(p, n);
      NextTickSpends(p, n);
      var rest := Ticks(q, top, n);
      var ts := [p] + rest;
      assert forall k :: 0 < k < |ts| ==> ts[k] == rest[k - 1];
      ts
    else []
  }

  /** The tick loop of `_paintAxis` for one row (every row repeats it):
      from the range minimum, while the tick is at most `max + n` and at
      most 1, move to the next tick. */
  method AxisTicks(range: DataRange) returns (ticks: seq<real>)
    ensures ticks == Ticks(range.min, range.max, TickStep(range))
  {
    var n := TickStep(range);
    var p := range.min;
    ticks := [];
    while p <= range.max + n && p <= 1.0
      invariant ticks + Ticks(p, range.max, n) == Ticks(range.min, range.max, n)
      decreases TickBudget(p)
    {
      var q := NextTick(p, n);
      assert TickBudget(q) < TickBudget(p) by {
        NextTickSpends(p, n);
      }
      assert (ticks + [p]) + Ticks(q, range.max, n) == Ticks(range.min, range.max, n) by {
        TicksUnfold(ticks, p, range.max, n);
      }
      ticks := ticks + [p];
      p := q;
    }
    assert Ticks(p, range.max, n) == [];
    assert ticks + [] == ticks;
  }

  /** One turn of the tick loop moves the current tick to the output. */
  lemma TicksUnfold(done: seq<real>, p: real, top: real, n: real)
    requires n >= 0.01 && p <= top + n && p <= 1.0
    ensures done + Ticks(p, top, n) == (done + [p]) + Ticks(NextTick(p, n), top, n)
  {
    assert Ticks(p, top, n) == [p] + Ticks(NextTick(p, n), top, n);
  }

  /** A range that starts at or below 1 gets at least its minimum as a
      tick, and an axis from 0 gets ticks at 0 and, for a step of at most
      0.995, at the rounded step. */
  lemma TicksFromZero(range: DataRange)
    requires range.min == 0.0 && range.max >= 0.0
    ensures var ts := Ticks(range.min, range.max, TickStep(range));
      |ts| >= 1 && ts[0] == 0.0 &&
      (TickStep(range) <= 0.995 ==> |ts| >= 2 && ts[1] == NextTick(0.0, TickStep(range)))
  {
    var n := TickStep(range);
    if n <= 0.995 {
      var q := NextTick(0.0, n);
      assert q <= range.max + n && q <= 1.0;
    }
  }

  // -----------------------------------------------------------------------
  // The bar of one feature

  /** Pixel column where the bar starts: the feature's start plus the
      15-base padding, rounded up; NaN for an unparsed start. */
  function BarStart(start: Option<int>, bpStart: real, bpPerPixel: real): (x: Option<int>)
    requires bpPerPixel > 0.0
    ensures x.Some? <==> start.Some?
  {
    if start.Some? then Some(Ceil((start.value as real - bpStart + FlankMargin as real) / bpPerPixel)) else None
  }

  /** Pixel column where the bar ends: the feature's end less the 15-base
      padding, rounded down; NaN for an unparsed end. */
  function BarEnd(end: Option<int>, bpStart: real, bpPerPixel: real): (x: Option<int>)
    requires bpPerPixel > 0.0
    ensures x.Some? <==> end.Some?
  {
    if end.Some? then Some(Floor((end.value as real - bpStart - FlankMargin as real) / bpPerPixel)) else None
  }

  /** `a <= c * b` when `a / b <= c` and `b > 0`. */
  lemma ScaleUp(a: real, b: real, c: real)
    requires b > 0.0 && a / b <= c
    ensures a <= c * b
  {
    assert (a / b) * b == a;
  }

  /** `c * b <= a` when `c <= a / b` and `b > 0`. */
  lemma ScaleDown(a: real, b: real, c: real)
    requires b > 0.0 && c <= a / b
    ensures c * b <= a
  {
    assert (a / b) * b == a;
  }

  /** The bar undoes the parser's padding: for a record whose parsed start
      `s` and end `e` were widened by the flank margin (as `MakeFeature`
      does), the bar runs from `s` rounded up to `e` rounded down, so it
      never covers a base outside the record. */
  lemma BarUndoesPadding(f: Feature, s: int, e: int, bpStart: real, bpPerPixel: real)
    requires bpPerPixel > 0.0
    requires f.start == Some(s - FlankMargin) && f.end == Some(e + FlankMargin)
    ensures BarStart(f.start, bpStart, bpPerPixel) == Some(Ceil((s as real - bpStart) / bpPerPixel))
    ensures BarEnd(f.end, bpStart, bpPerPixel) == Some(Floor((e as real - bpStart) / bpPerPixel))
    ensures s as real - bpStart <= BarStart(f.start, bpStart, bpPerPixel).value as real * bpPerPixel
    ensures BarEnd(f.end, bpStart, bpPerPixel).value as real * bpPerPixel <= e as real - bpStart
  {
    assert (s - FlankMargin) as real - bpStart + FlankMargin as real == s as real - bpStart;
    assert (e + FlankMargin) as real - bpStart - FlankMargin as real == e as real - bpStart;
    ScaleUp(s as real - bpStart, bpPerPixel, Ceil((s as real - bpStart) / bpPerPixel) as real);
    ScaleDown(e as real - bpStart, bpPerPixel, Floor((e as real - bpStart) / bpPerPixel) as real);
  }

  /** Height of the bar: `yScale(IRratio) - yScale(0)`, which is the ratio
      times the row's plot height over the range, drawn upwards (negative);
      NaN for a missing ratio, an undefined row or an empty range. */
  function BarHeight(fr: Frame, row: Option<int>, ratio: Option<real>): (h: Option<real>)
    ensures h.Some? <==> ratio.Some? && row.Some? && fr.range.max != fr.range.min
    ensures h.Some? ==> h.value == -(ratio.value * fr.rowPixels) / (fr.range.max - fr.range.min)
  {
    if ratio.None? then None
    else
      var top, base := YScale(fr, row, ratio.value), YScale(fr, row, 0.0);
      if top.Some? && base.Some? then
        var d := fr.range.max - fr.range.min;
        assert ((fr.range.max - ratio.value) / d) * fr.rowPixels - (fr.range.max / d) * fr.rowPixels
               == -(ratio.value * fr.rowPixels) / d;
        Some(top.value - base.value)
      else None
  }

  /** The bar label: the ratio rounded to thousandths, within half a
      thousandth of it. */
  function RatioLabel(ratio: real): (l: real)
    ensures ratio - 0.0005 < l <= ratio + 0.0005
    ensures Floor(l * 1000.0) as real == l * 1000.0
  {
    var k := Round(ratio * 1000.0);
    assert (k as real / 1000.0) * 1000.0 == k as real;
    k as real / 1000.0
  }
}
