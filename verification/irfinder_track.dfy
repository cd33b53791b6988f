/** The IRFinder track object and its IR-ratio variant: configuration
    defaults, the memoised feature request, the filter pass that lays the
    features out in lanes, autoscaling, the geometry `draw` leaves on the
    features, the content height, and the menu actions. */
module IRFinderTrack {
  import opened Wrappers
  import opened JsMath
  import opened JsText
  import opened IRFinderParser
  import opened IRFinderLayout
  import opened IRFinderRender
  import opened IRratio

  /** Popover window used when the configuration gives none. */
  const DefaultPopoverWindow: int := 100000000

  /** Feature colour used when the configuration gives none. */
  const DefaultColor: string := "#80D6F8"

  /** Warning colours used when the configuration gives none, one per
      known warning. */
  const DefaultWarningColors: seq<string> := ["#f71735", "#feb95f", "#b49a67", "#182825", "#80D6F8"]

  /** Tallest a lane may be, in pixels. */
  const MaxRowHeight: real := 80.0

  /** The depth track draws coverage; the ratio track (`IRratioTrack`)
      draws the intron-retention ratio and autoscales on it. */
  datatype Kind = Depth | Ratio

  /** The configuration fields `init` reads; an absent field is `None`. */
  datatype Config = Config(
    height: Option<real>,
    margin: Option<real>,
    autoscale: bool,
    min: Option<real>,
    max: Option<real>,
    colorBy: Option<string>,
    intronTypes: Option<seq<string>>,
    warnings: Option<seq<string>>,
    popoverWindow: Option<int>,
    color: Option<string>,
    warningColors: Option<seq<string>>)

  /** What a filter pass leaves on the track: the largest exact-splice
      count (`maxSplice`), the number of lanes (`maxRow`) and the lane
      height (`rowHeight`). */
  datatype Lanes = Lanes(maxSplice: int, maxRow: nat, rowHeight: real)

  /** The fields that only the configuration and the menu set. */
  datatype Settings = Settings(
    height: real, margin: real, autoscale: bool, colorBy: string, filters: Filters,
    popoverWindow: int, color: string, warningColors: seq<string>)

  /** `config.height || 100`: an absent or zero height falls back to 100. */
  function InitialHeight(h: Option<real>): (r: real)
    ensures h.Some? && h.value != 0.0 ==> r == h.value
    ensures h.None? || h.value == 0.0 ==> r == 100.0
  {
    if h.Some? && h.value != 0.0 then h.value else 100.0
  }

  /** The margin: the configured one, else a fifth of a height under 100
      (rounded), else 20. */
  function InitialMargin(height: real, m: Option<real>): (r: real)
    ensures m.Some? ==> r == m.value
    ensures m.None? && height >= 100.0 ==> r == 20.0
    ensures m.None? && height < 100.0 ==> height / 5.0 - 0.5 < r <= height / 5.0 + 0.5 && r == r.Floor as real
  {
    if m.Some? then m.value else if height < 100.0 then Round(height / 5.0) as real else 20.0
  }

  /** The range of a track that does not autoscale: the configured minimum
      (0 when absent or zero) and maximum (100 when absent), without a ratio
      maximum. */
  function ManualRange(c: Config): (r: DataRange)
    ensures r.maxRatio.None?
    ensures r.min == (if c.min.Some? then c.min.value else 0.0)
    ensures r.max == (if c.max.Some? then c.max.value else 100.0)
  {
    DataRange(if c.min.Some? && c.min.value != 0.0 then c.min.value else 0.0,
              if c.max.Some? then c.max.value else 100.0, None)
  }

  /** The lane height: the height less the margin when that exceeds the
      margin, else 80; never above 80. */
  function RowHeight(height: real, margin: real): (r: real)
    ensures r <= MaxRowHeight
    ensures height - margin > margin && height - margin <= MaxRowHeight ==> r == height - margin
    ensures !(height - margin > margin && height - margin < MaxRowHeight) ==> r == MaxRowHeight
  {
    var r := if height - margin > margin then height - margin else 80.0;
    if r > MaxRowHeight then MaxRowHeight else r
  }

  /** The content height of a laid out track: every lane with its margin;
      at least one lane's worth. */
  function ContentHeight(l: Lanes, margin: real): (h: real)
    ensures l.maxRow >= 1 && l.rowHeight + margin >= 0.0 ==> h >= l.rowHeight + margin
  {
    var n, w := l.maxRow as real, l.rowHeight + margin;
    assert n * w == (n - 1.0) * w + w;
    n * w
  }

  /** The drawn box of any lane below `maxRow`, with its margin, lies within
      the content height. */
  lemma BoxesFitPixelHeight(view: View, l: Lanes, margin: real, range: DataRange, row: int)
    requires l.maxRow >= 1 && 0 <= row < l.maxRow && margin >= 0.0
    requires range.min <= 0.0 < range.max
    requires FrameOf(view, l.maxRow, l.rowHeight, margin, range).rowPixels >= 0.0
    ensures var b := RowBox(FrameOf(view, l.maxRow, l.rowHeight, margin, range), Some(row));
      b.end.Some? && b.end.value + margin <= ContentHeight(l, margin)
  {
    var fr := FrameOf(view, l.maxRow, l.rowHeight, margin, range);
    var w := fr.rowPixels + margin;
    var k := (row + 1) as real;
    assert RowBox(fr, Some(row)).end.value + margin <= k * w by {
      assert row as real * w + fr.rowPixels + margin == k * w;
    }
    ScaledWithin(k, l.maxRow as real, w, l.rowHeight + margin);
  }

  /** `k * a <= n * b` for `0 <= k <= n` and `0 <= a <= b`. */
  lemma ScaledWithin(k: real, n: real, a: real, b: real)
    requires 0.0 <= k <= n && 0.0 <= a <= b
    ensures k * a <= n * b
  {
    assert (n - k) * a >= 0.0;
    assert n * (b - a) >= 0.0;
  }

  class IntronTrack {
    /** Which of the two classes this track is. */
    const kind: Kind
    var height: real
    var margin: real
    var autoscale: bool
    /** Undefined until the first autoscale when autoscaling. */
    var dataRange: Option<DataRange>
    var colorBy: string
    var filters: Filters
    var popoverWindow: int
    var color: string
    var warningColors: seq<string>
    /** The features of the last request, as the last filter pass left
        them; undefined until the first request is answered. */
    var features: Option<seq<Feature>>
    /** The key of the last request (`prev_request`). */
    var prevRequest: string
    /** Undefined until the first filter pass. */
    var lanes: Option<Lanes>
    /** The last content height computed (`this.pixelHeight`). */
    var pixelHeight: Option<real>

    /** The ratio maximum, when present, is at least 0.01; a laid out track
        has the seed lane, a splice maximum of at least 1 and lanes at most
        80 pixels high; features are held once a request has been made. */
    predicate Valid()
      reads this
    {
      (features.None? ==> prevRequest == "") &&
      (dataRange.Some? && dataRange.value.maxRatio.Some? ==> dataRange.value.maxRatio.value >= 0.01) &&
      (lanes.Some? ==> lanes.value.maxRow >= 1 && lanes.value.maxSplice >= 1 && lanes.value.rowHeight <= MaxRowHeight)
    }

    function CurrentSettings(): Settings
      reads this
    {
      Settings(height, margin, autoscale, colorBy, filters, popoverWindow, color, warningColors)
    }

    /** `init`: every setting from the configuration or its default. */
    constructor(config: Config, kind: Kind)
      ensures this.kind == kind
      ensures height == InitialHeight(config.height)
      ensures margin == InitialMargin(height, config.margin)
      ensures autoscale == (config.autoscale || config.max.None?)
      ensures dataRange == (if autoscale then None else Some(ManualRange(config)))
      ensures colorBy == (if config.colorBy.Some? then config.colorBy.value else "default")
      ensures filters == Filters(if config.intronTypes.Some? then config.intronTypes.value else ["clean"],
                                 if config.warnings.Some? then config.warnings.value else ["-"])
      ensures popoverWindow == (if config.popoverWindow.Some? then config.popoverWindow.value else DefaultPopoverWindow)
      ensures color == (if config.color.Some? then config.color.value else DefaultColor)
      ensures warningColors == (if config.warningColors.Some? then config.warningColors.value else DefaultWarningColors)
      ensures features.None? && prevRequest == "" && lanes.None? && pixelHeight.None?
      ensures Valid()
    {
      this.kind := kind;
      var h := InitialHeight(config.height);
      height := h;
      margin := InitialMargin(h, config.margin);
      var auto := config.autoscale || config.max.None?;
      autoscale := auto;
      dataRange := if auto then None else Some(ManualRange(config));
      colorBy := if config.colorBy.Some? then config.colorBy.value else "default";
      filters := Filters(if config.intronTypes.Some? then config.intronTypes.value else ["clean"],
                         if config.warnings.Some? then config.warnings.value else ["-"]);
      popoverWindow := if config.popoverWindow.Some? then config.popoverWindow.value else DefaultPopoverWindow;
      color := if config.color.Some? then config.color.value else DefaultColor;
      warningColors := if config.warningColors.Some? then config.warningColors.value else DefaultWarningColors;
      features := None;
      prevRequest := "";
      lanes := None;
      pixelHeight := None;
    }

    /** `filter(this.features)`: writes every feature's row, records the
        lane summary and returns the shown features. */
    method Filter() returns (shown: seq<Feature>)
      requires Valid() && features.Some?
      modifies this
      ensures var l := LayoutOf(old(features).value, filters);
        features == Some(Annotate(old(features).value, l.rows)) &&
        lanes == Some(Lanes(l.maxSplice, |l.lanes|, RowHeight(height, margin)))
      ensures shown == Shown(features.value)
      ensures CurrentSettings() == old(CurrentSettings()) && dataRange == old(dataRange)
      ensures prevRequest == old(prevRequest) && pixelHeight == old(pixelHeight)
      ensures Valid()
    {
      LayoutShape(features.value, filters);
      var annotated, maxRow, maxSplice := AssignRows(features.value, filters);
      features := Some(annotated);
      lanes := Some(Lanes(maxSplice, maxRow, RowHeight(height, margin)));
      shown := Shown(annotated);
    }

    /** `getFeatures`: asks the feature source (`fetch`) only when the
        request key differs from the last one, then records the key and
        filters. A repeated key filters the features already held. */
    method GetFeatures(chr: string, start: int, end: int, fetch: (string, int, int) -> seq<Feature>)
      returns (shown: seq<Feature>, ghost fetched: bool)
      requires Valid()
      modifies this
      ensures fetched <==> RequestKey(chr, start, end) != old(prevRequest)
      ensures prevRequest == RequestKey(chr, start, end)
      ensures var base := if fetched then fetch(chr, start, end) else old(features).value;
        var l := LayoutOf(base, filters);
        features == Some(Annotate(base, l.rows)) &&
        lanes == Some(Lanes(l.maxSplice, |l.lanes|, RowHeight(height, margin)))
      ensures shown == Shown(features.value)
      ensures CurrentSettings() == old(CurrentSettings()) && dataRange == old(dataRange) && pixelHeight == old(pixelHeight)
      ensures Valid()
    {
      var request := RequestKey(chr, start, end);
      fetched := request != prevRequest;
      if request != prevRequest {
        features := Some(fetch(chr, start, end));
        prevRequest := request;
      }
      shown := Filter();
    }

    /** `doAutoscale`: the depth track scales on depth with a separate ratio
        maximum, the ratio track on the ratio alone. */
    method DoAutoscale(fs: seq<Feature>, scale: seq<Option<real>> -> real) returns (r: DataRange)
      requires Valid()
      modifies this
      ensures r == (if kind == Depth then DepthAutoscale(fs, scale) else RatioAutoscale(fs, scale))
      ensures dataRange == Some(r)
      ensures CurrentSettings() == old(CurrentSettings()) && features == old(features) && lanes == old(lanes)
      ensures prevRequest == old(prevRequest) && pixelHeight == old(pixelHeight)
      ensures Valid()
    {
      if kind == Depth {
        r := DepthAutoscale(fs, scale);
      } else {
        r := RatioAutoscale(fs, scale);
      }
      dataRange := Some(r);
    }

    /** The frame of a `draw` call with the current lanes and range. */
    function Frame(view: View): (fr: Frame)
      requires lanes.Some? && lanes.value.maxRow >= 1 && dataRange.Some?
      reads this
      ensures fr.margin == margin && fr.range == dataRange.value
      ensures fr.rowPixels <= lanes.value.rowHeight - margin
    {
      FrameOf(view, lanes.value.maxRow, lanes.value.rowHeight, margin, dataRange.value)
    }

    /** The geometry part of `draw`: every feature inside the window gets
        its row's box; a feature outside keeps the box it had. */
    method Draw(fs: seq<Feature>, view: View) returns (drawn: seq<Feature>)
      requires Valid() && lanes.Some? && dataRange.Some?
      ensures drawn == DrawAll(fs, Frame(view))
    {
      var fr := FrameOf(view, lanes.value.maxRow, lanes.value.rowHeight, margin, dataRange.value);
      drawn := [];
      var idx := 0;
      while idx < |fs|
        invariant 0 <= idx <= |fs| && |drawn| == idx
        invariant forall k :: 0 <= k < idx ==> drawn[k] == Drawn(fs[k], fr)
      {
        var feature := fs[idx];
        if (feature.end.Some? && (feature.end.value as real) < fr.bpStart) ||
           (feature.start.Some? && (feature.start.value as real) > fr.bpEnd) {
          drawn := drawn + [feature];
        } else {
          drawn := drawn + [feature.(y := Some(RowBox(fr, feature.row)))];
        }
        idx := idx + 1;
      }
    }

    /** `computePixelHeight`: the lanes times the lane height plus margin;
        NaN before the first filter pass. */
    method ComputePixelHeight() returns (h: Option<real>)
      modifies this
      ensures lanes.Some? ==> h == Some(ContentHeight(lanes.value, margin))
      ensures lanes.None? ==> h.None?
      ensures pixelHeight == h
      ensures CurrentSettings() == old(CurrentSettings()) && features == old(features) && lanes == old(lanes)
      ensures dataRange == old(dataRange) && prevRequest == old(prevRequest)
    {
      if lanes.Some? {
        h := Some(ContentHeight(lanes.value, margin));
      } else {
        h := None;
      }
      pixelHeight := h;
    }

    /** Menu: ticking a warning toggles it in the warning filter and
        filters again. */
    method ToggleWarning(w: string) returns (shown: seq<Feature>)
      requires Valid() && features.Some?
      modifies this
      ensures filters == old(filters).(warnings := Toggle(old(filters.warnings), w))
      ensures var l := LayoutOf(old(features).value, filters);
        features == Some(Annotate(old(features).value, l.rows)) &&
        lanes == Some(Lanes(l.maxSplice, |l.lanes|, RowHeight(height, margin)))
      ensures shown == Shown(features.value)
      ensures CurrentSettings() == old(CurrentSettings()).(filters := filters)
      ensures dataRange == old(dataRange) && prevRequest == old(prevRequest)
      ensures pixelHeight == Some(ContentHeight(lanes.value, margin))
      ensures Valid()
    {
      filters := filters.(warnings := Toggle(filters.warnings, w));
      shown := Filter();
      var _ := ComputePixelHeight();
    }

    /** Menu: ticking an intron type toggles it in the intron-type filter
        and filters again. */
    method ToggleIntronType(t: string) returns (shown: seq<Feature>)
      requires Valid() && features.Some?
      modifies this
      ensures filters == old(filters).(intronTypes := Toggle(old(filters.intronTypes), t))
      ensures var l := LayoutOf(old(features).value, filters);
        features == Some(Annotate(old(features).value, l.rows)) &&
        lanes == Some(Lanes(l.maxSplice, |l.lanes|, RowHeight(height, margin)))
      ensures shown == Shown(features.value)
      ensures CurrentSettings() == old(CurrentSettings()).(filters := filters)
      ensures dataRange == old(dataRange) && prevRequest == old(prevRequest)
      ensures pixelHeight == Some(ContentHeight(lanes.value, margin))
      ensures Valid()
    {
      filters := filters.(intronTypes := Toggle(filters.intronTypes, t));
      shown := Filter();
      var _ := ComputePixelHeight();
    }

    /** Menu: the autoscale item flips autoscaling and filters again. */
    method ToggleAutoscale() returns (shown: seq<Feature>)
      requires Valid() && features.Some?
      modifies this
      ensures CurrentSettings() == old(CurrentSettings()).(autoscale := !old(autoscale))
      ensures var l := LayoutOf(old(features).value, filters);
        features == Some(Annotate(old(features).value, l.rows)) &&
        lanes == Some(Lanes(l.maxSplice, |l.lanes|, RowHeight(height, margin)))
      ensures shown == Shown(features.value)
      ensures dataRange == old(dataRange) && prevRequest == old(prevRequest)
      ensures pixelHeight == Some(ContentHeight(lanes.value, margin))
      ensures Valid()
    {
      autoscale := !autoscale;
      shown := Filter();
      var _ := ComputePixelHeight();
    }

    /** Menu: choosing a colour scheme only records it. */
    method SetColorBy(scheme: string)
      modifies this
      ensures colorBy == scheme
      ensures CurrentSettings() == old(CurrentSettings()).(colorBy := scheme)
      ensures features == old(features) && lanes == old(lanes) && dataRange == old(dataRange)
      ensures prevRequest == old(prevRequest) && pixelHeight == old(pixelHeight)
    {
      colorBy := scheme;
    }
  }

  /** Toggling a warning twice on a fresh track filter (each warning listed
      at most once) gives back the warning filter it started with, and
      with it the same lanes. */
  lemma ToggleWarningTwiceRestores(fs: seq<Feature>, filters: Filters, w: string)
    requires w !in filters.warnings
    ensures var once := filters.(warnings := Toggle(filters.warnings, w));
      var twice := once.(warnings := Toggle(once.warnings, w));
      twice == filters && LayoutOf(fs, twice) == LayoutOf(fs, filters)
  {
    ToggleTwice(filters.warnings, w);
  }
}
