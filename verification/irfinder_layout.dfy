/** The IRFinder track's `filter`: the inclusion lists for warnings and
    intron types, and the greedy first-fit assignment of kept features to
    lanes ("rows"), seeded with one lane whose last end is -100. Also the
    menu toggles that edit the inclusion lists. */
module IRFinderLayout {
  import opened Wrappers
  import opened JsText
  import opened IRFinderParser

  /** Last end of the seed lane every layout starts with. */
  const SeedLaneEnd: int := -100

  /** The row written on a feature that the filters exclude. */
  const Hidden: int := -1

  /** The two inclusion lists (`this.filters`). */
  datatype Filters = Filters(intronTypes: seq<string>, warnings: seq<string>)

  /** A feature is shown when its warning and its intron type are both
      listed; an undefined intron type is never listed. */
  predicate Passes(f: Feature, filters: Filters) {
    f.warning in filters.warnings && f.intronType.Some? && f.intronType.value in filters.intronTypes
  }

  /** `last < start` in JavaScript: false as soon as either side is NaN. */
  predicate EndsBefore(last: Option<int>, start: Option<int>) {
    last.Some? && start.Some? && last.value < start.value
  }

  /** `lanes.findIndex(r => r < start)`, with `|lanes|` standing for -1. */
  function FirstFreeLane(lanes: seq<Option<int>>, start: Option<int>): (k: nat)
    ensures k <= |lanes|
    ensures k < |lanes| ==> EndsBefore(lanes[k], start)
    ensures forall j :: 0 <= j < k ==> !EndsBefore(lanes[j], start)
    decreases |lanes|
  {
    if |lanes| == 0 then 0
    else if EndsBefore(lanes[0], start) then 0
    else 1 + FirstFreeLane(lanes[1..], start)
  }

  /** State of one filter pass: the last end of every lane, the row given to
      each feature seen so far, and the largest exact-splice count kept. */
  datatype Layout = Layout(lanes: seq<Option<int>>, rows: seq<int>, maxSplice: int)

  /** Handling of one feature by the loop body of `filter`. */
  function Step(st: Layout, f: Feature, filters: Filters): Layout {
    if Passes(f, filters) then
      var maxSplice := if f.spliceExact.Some? && f.spliceExact.value > st.maxSplice
                       then f.spliceExact.value else st.maxSplice;
      var k := FirstFreeLane(st.lanes, f.start);
      var lanes := if k == |st.lanes| then st.lanes + [f.end] else st.lanes[k := f.end];
      Layout(lanes, st.rows + [k], maxSplice)
    else
      Layout(st.lanes, st.rows + [Hidden], st.maxSplice)
  }

  /** The layout after the features have been handled in order. */
  function LayoutOf(fs: seq<Feature>, filters: Filters): (l: Layout)
    ensures |l.rows| == |fs| && |l.lanes| >= 1
    decreases |fs|
  {
    if |fs| == 0 then Layout([Some(SeedLaneEnd)], [], 1)
    else Step(LayoutOf(fs[..|fs| - 1], filters), fs[|fs| - 1], filters)
  }

  /** Every feature with its row written on it. */
  function Annotate(fs: seq<Feature>, rows: seq<int>): (r: seq<Feature>)
    requires |rows| == |fs|
    ensures |r| == |fs|
    ensures forall i :: 0 <= i < |fs| ==> r[i] == fs[i].(row := Some(rows[i]))
  {
    seq(|fs|, i requires 0 <= i < |fs| => fs[i].(row := Some(rows[i])))
  }

  /** `features.filter(f => f.row != -1)`. */
  function Shown(fs: seq<Feature>): (r: seq<Feature>)
    ensures |r| <= |fs|
    ensures forall k :: 0 <= k < |r| ==> r[k] in fs && r[k].row != Some(Hidden)
    decreases |fs|
  {
    if |fs| == 0 then []
    else (if fs[0].row != Some(Hidden) then [fs[0]] else []) + Shown(fs[1..])
  }

  /** The filter loop over `features`: writes each feature's row, keeps
      the lanes in a local list, and reports the number of lanes (`maxRow`,
      which counts the seed lane) and the largest exact-splice count. */
  method AssignRows(features: seq<Feature>, filters: Filters)
    returns (annotated: seq<Feature>, maxRow: nat, maxSplice: int)
    ensures var l := LayoutOf(features, filters);
      |l.rows| == |features| && annotated == Annotate(features, l.rows) &&
      maxRow == |l.lanes| && maxSplice == l.maxSplice
  {
    var lanes: seq<Option<int>> := [Some(SeedLaneEnd)];
    var rows: seq<int> := [];
    maxSplice := 1;
    var i := 0;
    while i < |features|
      invariant 0 <= i <= |features|
      invariant LayoutOf(features[..i], filters) == Layout(lanes, rows, maxSplice)
      invariant |rows| == i
    {
      var feat := features[i];
      assert features[..i + 1][..i] == features[..i];
      if feat.warning in filters.warnings && feat.intronType.Some? && feat.intronType.value in filters.intronTypes {
        if feat.spliceExact.Some? && feat.spliceExact.value > maxSplice {
          maxSplice := feat.spliceExact.value;
        }
        var idx := FirstFreeLane(lanes, feat.start);
        if idx == |lanes| {
          lanes := lanes + [feat.end];
        } else {
          lanes := lanes[idx := feat.end];
        }
        rows := rows + [idx];
      } else {
        rows := rows + [Hidden];
      }
      i := i + 1;
    }
    assert features[..i] == features;
    annotated := Annotate(features, rows);
    maxRow := |lanes|;
  }

  // -----------------------------------------------------------------------
  // What a filter pass guarantees

  /** A feature is hidden exactly when the filters exclude it; a shown
      feature's row is a lane index, below `maxRow`; there is always the
      seed lane; the splice maximum is at least 1 and bounds every kept
      exact-splice count. */
  lemma {:induction false} LayoutShape(fs: seq<Feature>, filters: Filters)
    ensures var l := LayoutOf(fs, filters);
      |l.rows| == |fs| && |l.lanes| >= 1 && l.maxSplice >= 1 &&
      (forall i :: 0 <= i < |fs| ==> (l.rows[i] == Hidden <==> !Passes(fs[i], filters))) &&
      (forall i :: 0 <= i < |fs| && Passes(fs[i], filters) ==> 0 <= l.rows[i] < |l.lanes|) &&
      (forall i :: 0 <= i < |fs| && Passes(fs[i], filters) && fs[i].spliceExact.Some? ==>
         fs[i].spliceExact.value <= l.maxSplice)
    decreases |fs|
  {
    if |fs| > 0 {
      var n := |fs| - 1;
      LayoutShape(fs[..n], filters);
      var p := LayoutOf(fs[..n], filters);
      var l := LayoutOf(fs, filters);
      assert l == Step(p, fs[n], filters);
      assert l.rows == p.rows + [l.rows[n]];
      assert |l.lanes| >= |p.lanes| && l.maxSplice >= p.maxSplice;
      assert l.rows[n] == Hidden <==> !Passes(fs[n], filters);
      forall i | 0 <= i < n
        ensures fs[i] == fs[..n][i] && l.rows[i] == p.rows[i]
      {
      }
    }
  }

  /** First fit: a kept feature goes to the lowest lane whose last end lies
      strictly before its start; every lower lane ends at or after it; a new
      lane, ending where the feature ends, is opened only when no lane
      qualifies. */
  lemma FirstFit(fs: seq<Feature>, filters: Filters, j: nat)
    requires j < |fs| && Passes(fs[j], filters)
    ensures |LayoutOf(fs[..j + 1], filters).rows| == j + 1
    ensures var before := LayoutOf(fs[..j], filters).lanes;
      var after := LayoutOf(fs[..j + 1], filters).lanes;
      var r := LayoutOf(fs[..j + 1], filters).rows[j];
      0 <= r <= |before| &&
      (forall k :: 0 <= k < r ==> !EndsBefore(before[k], fs[j].start)) &&
      (r < |before| ==> EndsBefore(before[r], fs[j].start) && |after| == |before|) &&
      (r == |before| ==> |after| == |before| + 1) &&
      r < |after| && after[r] == fs[j].end
  {
    assert fs[..j + 1][..j] == fs[..j];
    assert fs[..j + 1][j] == fs[j];
    LayoutShape(fs[..j], filters);
    assert LayoutOf(fs[..j + 1], filters) == Step(LayoutOf(fs[..j], filters), fs[j], filters);
  }

  /** The rows of the first `n` features do not change once later features
      are handled. */
  lemma {:induction false} RowsStable(fs: seq<Feature>, filters: Filters, n: nat)
    requires n <= |fs|
    ensures |LayoutOf(fs[..n], filters).rows| == n
    ensures |LayoutOf(fs, filters).rows| == |fs|
    ensures LayoutOf(fs[..n], filters).rows == LayoutOf(fs, filters).rows[..n]
    decreases |fs| - n
  {
    LayoutShape(fs[..n], filters);
    LayoutShape(fs, filters);
    if n < |fs| {
      RowsStable(fs, filters, n + 1);
      assert fs[..n + 1][..n] == fs[..n];
    } else {
      assert fs[..n] == fs;
    }
  }

  /** A span that parsed to numbers runs forwards. */
  predicate ForwardSpan(f: Feature) {
    f.start.Some? && f.end.Some? ==> f.start.value <= f.end.value
  }

  /** `last` bounds the end of a feature placed on its lane, or the lane is
      dead (its last end is NaN, so no feature can join it any more). */
  predicate Covers(end: Option<int>, last: Option<int>) {
    last.None? || (end.Some? && end.value <= last.value)
  }

  /** Of two kept features on the same row, the later starts strictly after
      the earlier ends. */
  predicate LaneSharersDisjoint(fs: seq<Feature>, rows: seq<int>, filters: Filters)
    requires |rows| == |fs|
  {
    forall i, j | 0 <= i < j < |fs| && Passes(fs[i], filters) && Passes(fs[j], filters) && rows[i] == rows[j] ::
      fs[i].end.Some? && fs[j].start.Some? && fs[i].end.value < fs[j].start.value
  }

  /** Two kept features that share a lane are disjoint: the later one starts
      strictly after the earlier one ends. */
  lemma {:induction false} LanesDisjoint(fs: seq<Feature>, filters: Filters)
    requires forall i :: 0 <= i < |fs| ==> ForwardSpan(fs[i])
    ensures var l := LayoutOf(fs, filters);
      |l.rows| == |fs| && LaneSharersDisjoint(fs, l.rows, filters)
  {
    LanesCover(fs, filters);
  }

  /** The invariant of a filter pass over `fs` in state `st`: every kept
      feature's lane covers its end, and lane sharers are disjoint. */
  predicate CoverInv(fs: seq<Feature>, st: Layout, filters: Filters) {
    |st.rows| == |fs| &&
    (forall i | 0 <= i < |fs| && Passes(fs[i], filters) ::
       0 <= st.rows[i] < |st.lanes| && Covers(fs[i].end, st.lanes[st.rows[i]])) &&
    LaneSharersDisjoint(fs, st.rows, filters)
  }

  lemma StepCover(fs: seq<Feature>, st: Layout, f: Feature, filters: Filters)
    requires CoverInv(fs, st, filters) && ForwardSpan(f)
    ensures CoverInv(fs + [f], Step(st, f, filters), filters)
  {
    var gs := fs + [f];
    var n := |fs|;
    var l := Step(st, f, filters);
    assert forall i :: 0 <= i < n ==> gs[i] == fs[i] && l.rows[i] == st.rows[i];
    if Passes(f, filters) {
      var k := FirstFreeLane(st.lanes, f.start);
      forall i | 0 <= i < n && Passes(fs[i], filters) && st.rows[i] == k
        ensures fs[i].end.Some? && f.start.Some? && fs[i].end.value < f.start.value
        ensures Covers(fs[i].end, l.lanes[k])
      {
        assert EndsBefore(st.lanes[k], f.start);
      }
      forall i, j | 0 <= i < j < |gs| && Passes(gs[i], filters) && Passes(gs[j], filters) && l.rows[i] == l.rows[j]
        ensures gs[i].end.Some? && gs[j].start.Some? && gs[i].end.value < gs[j].start.value
      {
      }
    } else {
      forall i, j | 0 <= i < j < |gs| && Passes(gs[i], filters) && Passes(gs[j], filters) && l.rows[i] == l.rows[j]
        ensures gs[i].end.Some? && gs[j].start.Some? && gs[i].end.value < gs[j].start.value
      {
      }
    }
  }

  lemma {:induction false} LanesCover(fs: seq<Feature>, filters: Filters)
    requires forall i :: 0 <= i < |fs| ==> ForwardSpan(fs[i])
    ensures CoverInv(fs, LayoutOf(fs, filters), filters)
    decreases |fs|
  {
    if |fs| > 0 {
      var n := |fs| - 1;
      LanesCover(fs[..n], filters);
      StepCover(fs[..n], LayoutOf(fs[..n], filters), fs[n], filters);
      assert fs[..n] + [fs[n]] == fs;
    }
  }

  /** Features that are all kept and already in order with gaps between
      them all share the seed lane: one lane is used. */
  lemma {:induction false} OrderedDisjointUseOneLane(fs: seq<Feature>, filters: Filters)
    requires forall i :: 0 <= i < |fs| ==> Passes(fs[i], filters)
    requires forall i :: 0 <= i < |fs| ==> fs[i].start.Some? && fs[i].end.Some?
    requires |fs| > 0 ==> SeedLaneEnd < fs[0].start.value
    requires forall i :: 0 < i < |fs| ==> fs[i - 1].end.value < fs[i].start.value
    ensures var l := LayoutOf(fs, filters);
      |l.lanes| == 1 && |l.rows| == |fs| && (forall i :: 0 <= i < |fs| ==> l.rows[i] == 0)
    ensures |fs| > 0 ==> LayoutOf(fs, filters).lanes == [fs[|fs| - 1].end]
    decreases |fs|
  {
    if |fs| > 0 {
      var n := |fs| - 1;
      var pre := fs[..n];
      OrderedDisjointUseOneLane(pre, filters);
      assert forall i :: 0 <= i < n ==> LayoutOf(fs, filters).rows[i] == LayoutOf(pre, filters).rows[i];
    }
  }

  /** Only a feature's filter attributes, span and exact-splice count feed
      the layout; its row and cached geometry do not. */
  predicate SameLayoutInput(f: Feature, g: Feature) {
    f.warning == g.warning && f.intronType == g.intronType && f.start == g.start &&
    f.end == g.end && f.spliceExact == g.spliceExact
  }

  /** Re-running the filter on features that differ only in their row and
      geometry, such as the features a previous pass annotated, gives the
      same layout. */
  lemma {:induction false} LayoutIgnoresAnnotations(fs: seq<Feature>, gs: seq<Feature>, filters: Filters)
    requires |fs| == |gs|
    requires forall i :: 0 <= i < |fs| ==> SameLayoutInput(fs[i], gs[i])
    ensures LayoutOf(fs, filters) == LayoutOf(gs, filters)
    decreases |fs|
  {
    if |fs| > 0 {
      var n := |fs| - 1;
      LayoutIgnoresAnnotations(fs[..n], gs[..n], filters);
      assert Passes(fs[n], filters) == Passes(gs[n], filters);
    }
  }

  /** Filtering twice in a row (the track filters `this.features` in place)
      gives the same rows. */
  lemma FilterIdempotent(fs: seq<Feature>, filters: Filters)
    ensures var l := LayoutOf(fs, filters);
      |l.rows| == |fs| && LayoutOf(Annotate(fs, l.rows), filters) == l
  {
    var l := LayoutOf(fs, filters);
    LayoutShape(fs, filters);
    LayoutIgnoresAnnotations(fs, Annotate(fs, l.rows), filters);
  }

  /** The features shown after a pass are exactly the kept ones, in input
      order, each carrying its lane. */
  lemma {:induction false} ShownAreKept(fs: seq<Feature>, rows: seq<int>, filters: Filters)
    requires |rows| == |fs|
    requires forall i :: 0 <= i < |fs| ==> (rows[i] == Hidden <==> !Passes(fs[i], filters))
    ensures Shown(Annotate(fs, rows)) == KeptWithRows(fs, rows, filters)
    decreases |fs|
  {
    if |fs| > 0 {
      ShownAreKept(fs[1..], rows[1..], filters);
      assert Annotate(fs, rows)[1..] == Annotate(fs[1..], rows[1..]);
    }
  }

  /** The kept features, each with its row, in input order. */
  function KeptWithRows(fs: seq<Feature>, rows: seq<int>, filters: Filters): (r: seq<Feature>)
    requires |rows| == |fs|
    ensures |r| <= |fs|
    ensures forall k :: 0 <= k < |r| ==> Passes(r[k], filters)
    decreases |fs|
  {
    if |fs| == 0 then []
    else (if Passes(fs[0], filters) then [fs[0].(row := Some(rows[0]))] else [])
         + KeptWithRows(fs[1..], rows[1..], filters)
  }

  // -----------------------------------------------------------------------
  // Menu toggles

  /** A menu toggle: append `v` when it is absent, otherwise remove its
      first occurrence. */
  function Toggle(s: seq<string>, v: string): (r: seq<string>)
    ensures v !in s ==> r == s + [v]
    ensures v in s ==> multiset(r) == multiset(s) - multiset{v} && |r| == |s| - 1
    ensures forall w :: w != v ==> (w in r <==> w in s)
  {
    var idx := FindIndex(s, v);
    if idx == -1 then s + [v]
    else
      assert s == s[..idx] + [v] + s[idx + 1..];
      s[..idx] + s[idx + 1..]
  }

  /** Toggling a listed value removes its first occurrence and keeps the
      other entries in their order. */
  lemma ToggleRemovesFirst(s: seq<string>, v: string) returns (i: nat)
    requires v in s
    ensures i < |s| && s[i] == v && v !in s[..i]
    ensures Toggle(s, v) == s[..i] + s[i + 1..]
  {
    i := FindIndex(s, v);
  }

  /** `v` occurs at most once in `s`. */
  predicate AtMostOnce(s: seq<string>, v: string) {
    multiset(s)[v] <= 1
  }

  /** Toggling flips membership of a value listed at most once, and toggling
      twice restores it; from an unlisted value the list itself is restored. */
  lemma ToggleTwice(s: seq<string>, v: string)
    requires AtMostOnce(s, v)
    ensures (v in Toggle(s, v)) <==> (v !in s)
    ensures (v in Toggle(Toggle(s, v), v)) <==> (v in s)
    ensures v !in s ==> Toggle(Toggle(s, v), v) == s
  {
    var t := Toggle(s, v);
    if v in s {
      assert multiset(t)[v] == 0;
    } else {
      assert multiset(t)[v] == 1;
      var idx := FindIndex(t, v);
      assert idx == |s| by {
        assert t[|s|] == v;
      }
      assert t[..idx] == s;
    }
  }

  /** A toggle never introduces a duplicate. */
  lemma ToggleKeepsAtMostOnce(s: seq<string>, v: string, w: string)
    requires AtMostOnce(s, w)
    ensures AtMostOnce(Toggle(s, v), w)
  {
  }
}
