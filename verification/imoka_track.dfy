/** The iMOKA k-mer track: the stacking of k-mers into lanes so that no two
    overlapping k-mers share one, the content height that follows, the
    click lookup of the k-mer under the mouse cursor, and the accuracy colour. */
module IMokaTrack {
  import opened Wrappers
  import opened JsMath

  /** One k-mer alignment: its reference span, strand, best accuracy value
      (absent for some k-mers) and its lane (`y`), absent until stacked. */
  datatype Kmer = Kmer(start: int, end: int, strand: string, bestValue: Option<real>, y: Option<int>)

  // -----------------------------------------------------------------------
  // Overlap

  /** `contains(a, b)`: `a` starts within `b`. The source writes the same
      disjunct twice. */
  predicate Contains(a: Kmer, b: Kmer) {
    (a.start >= b.start && a.start <= b.end) || (a.start >= b.start && a.start <= b.end)
  }

  /** The stacking test: either k-mer starts within the other. */
  predicate Touch(a: Kmer, b: Kmer) {
    Contains(a, b) || Contains(b, a)
  }

  /** For spans written forwards, touching is exactly the overlap of the
      closed intervals, whichever of the two is first. */
  lemma TouchIsClosedOverlap(a: Kmer, b: Kmer)
    requires a.start <= a.end && b.start <= b.end
    ensures Touch(a, b) <==> (a.start <= b.end && b.start <= a.end)
    ensures Touch(a, b) == Touch(b, a)
  {
    if a.start <= b.end && b.start <= a.end {
      if a.start >= b.start {
        assert Contains(a, b);
      } else {
        assert Contains(b, a);
      }
    }
  }

  /** Two k-mers that both cover the base `x` touch, whatever their spans. */
  lemma CommonBaseTouches(a: Kmer, b: Kmer, x: real)
    requires a.start as real <= x <= a.end as real && b.start as real <= x <= b.end as real
    ensures Touch(a, b)
  {
    if a.start >= b.start {
      assert a.start as real <= b.end as real;
      assert Contains(a, b);
    } else {
      assert b.start as real <= a.end as real;
      assert Contains(b, a);
    }
  }

  // -----------------------------------------------------------------------
  // The sort before stacking

  /** The comparator `initFeatures` hands to the sort. Its arrow function
      has a block body without `return`, so every call yields `undefined`,
      which the sort reads as 0: no two k-mers are ever out of order. */
  function AsWrittenOrder(a: Kmer, b: Kmer): int {
    0
  }

  /** Inserts `x` after the last element of `t` that does not compare
      above it. */
  function InsertStable(t: seq<Kmer>, x: Kmer, cmp: (Kmer, Kmer) -> int): (r: seq<Kmer>)
    ensures multiset(r) == multiset(t) + multiset{x}
    ensures (forall k :: 0 <= k < |t| ==> cmp(t[k], x) <= 0) ==> r == t + [x]
  {
    if |t| == 0 then [x]
    else if cmp(t[|t| - 1], x) > 0 then
      var rest := InsertStable(t[..|t| - 1], x, cmp);
      assert t == t[..|t| - 1] + [t[|t| - 1]];
      rest + [t[|t| - 1]]
    else t + [x]
  }

  /** A stable sort by `cmp` (insertion sort from the front). */
  function SortBy(s: seq<Kmer>, cmp: (Kmer, Kmer) -> int): (r: seq<Kmer>)
    ensures multiset(r) == multiset(s)
  {
    if |s| == 0 then []
    else
      assert s == s[..|s| - 1] + [s[|s| - 1]];
      InsertStable(SortBy(s[..|s| - 1], cmp), s[|s| - 1], cmp)
  }

  /** A comparator that never reports a pair out of order leaves a stable
      sort's input as it was. */
  lemma {:induction false} SortWithoutOrderKeepsInput(s: seq<Kmer>, cmp: (Kmer, Kmer) -> int)
    requires forall a, b :: cmp(a, b) <= 0
    ensures SortBy(s, cmp) == s
  {
    if |s| > 0 {
      var prefix, last := s[..|s| - 1], s[|s| - 1];
      assert s == prefix + [last];
      assert SortBy(s, cmp) == InsertStable(SortBy(prefix, cmp), last, cmp);
      assert SortBy(prefix, cmp) == prefix by {
        SortWithoutOrderKeepsInput(prefix, cmp);
      }
      assert InsertStable(prefix, last, cmp) == prefix + [last] by {
        assert forall k :: 0 <= k < |prefix| ==> cmp(prefix[k], last) <= 0;
      }
    }
  }

  /** The sort in `initFeatures` keeps the order it is given. */
  lemma AsWrittenSortKeepsOrder(s: seq<Kmer>)
    ensures SortBy(s, AsWrittenOrder) == s
  {
    SortWithoutOrderKeepsInput(s, AsWrittenOrder);
  }

  // -----------------------------------------------------------------------
  // Lanes

  /** Lane `v` is blocked for the k-mer at `i`: another k-mer touching it
      holds that lane. */
  predicate Blocked(ks: seq<Kmer>, i: int, v: int)
    requires 0 <= i < |ks|
  {
    exists j :: 0 <= j < |ks| && j != i && Touch(ks[i], ks[j]) && ks[j].y == Some(v)
  }

  /** The highest lane any k-mer holds, 0 when none holds a positive one. */
  function MaxLane(ks: seq<Kmer>): (m: nat)
    ensures forall j :: 0 <= j < |ks| && ks[j].y.Some? ==> ks[j].y.value <= m
  {
    if |ks| == 0 then 0
    else
      var m := MaxLane(ks[..|ks| - 1]);
      var last := ks[|ks| - 1].y;
      var r := if last.Some? && last.value > m then last.value else m;
      assert forall j :: 0 <= j < |ks| - 1 ==> ks[j] == ks[..|ks| - 1][j];
      r
  }

  /** A positive highest lane is held by some k-mer. */
  lemma {:induction false} MaxLaneHeld(ks: seq<Kmer>) returns (j: nat)
    requires MaxLane(ks) > 0
    ensures j < |ks| && ks[j].y == Some(MaxLane(ks))
  {
    var init := ks[..|ks| - 1];
    var last := ks[|ks| - 1].y;
    if last.Some? && last.value > MaxLane(init) {
      j := |ks| - 1;
    } else {
      j := MaxLaneHeld(init);
      assert ks[j] == init[j];
    }
  }

  /** The lowest lane from `v` on that is not blocked for the k-mer at `i`. */
  function FreeFrom(ks: seq<Kmer>, i: int, v: int): (r: int)
    requires 0 <= i < |ks|
    ensures r >= v && !Blocked(ks, i, r)
    ensures forall w :: v <= w < r ==> Blocked(ks, i, w)
    decreases MaxLane(ks) + 1 - v
  {
    if Blocked(ks, i, v) then
      assert v <= MaxLane(ks);
      FreeFrom(ks, i, v + 1)
    else v
  }

  /** Stacks the k-mers from `i` on, in order: each takes the lowest lane
      from 1 not blocked by the lanes held at that moment (its
      predecessors' new lanes, its successors' lanes from before). */
  function StackFrom(ks: seq<Kmer>, i: nat): (r: seq<Kmer>)
    requires i <= |ks|
    ensures |r| == |ks|
    ensures forall k :: 0 <= k < |ks| ==> r[k] == ks[k].(y := r[k].y)
    ensures forall k :: 0 <= k < i ==> r[k] == ks[k]
    ensures forall k :: i <= k < |ks| ==> r[k].y.Some? && r[k].y.value >= 1
    decreases |ks| - i
  {
    if i == |ks| then ks
    else StackFrom(ks[i := ks[i].(y := Some(FreeFrom(ks, i, 1)))], i + 1)
  }

  /** The k-mers after stacking. */
  function Stacked(ks: seq<Kmer>): (r: seq<Kmer>)
    ensures |r| == |ks|
    ensures forall k :: 0 <= k < |ks| ==> r[k] == ks[k].(y := r[k].y)
    ensures forall k :: 0 <= k < |ks| ==> r[k].y.Some? && r[k].y.value >= 1
  {
    StackFrom(ks, 0)
  }

  /** No two touching k-mers among the first `n` share a lane. */
  predicate Separated(ks: seq<Kmer>, n: int)
    requires n <= |ks|
  {
    forall a, b :: 0 <= a < b < n && Touch(ks[a], ks[b]) ==> ks[a].y != ks[b].y
  }

  /** Stacking from `i` keeps the k-mers before `i` apart and sets each
      later one apart from all those before it. */
  lemma {:induction false} StackFromSeparates(ks: seq<Kmer>, i: nat)
    requires i <= |ks| && Separated(ks, i)
    ensures Separated(StackFrom(ks, i), |ks|)
    decreases |ks| - i
  {
    if i < |ks| {
      var v := FreeFrom(ks, i, 1);
      var next := ks[i := ks[i].(y := Some(v))];
      forall a, b | 0 <= a < b < i + 1 && Touch(next[a], next[b])
        ensures next[a].y != next[b].y
      {
        if b == i {
          assert next[a] == ks[a] && next[b].y == Some(v);
          assert Touch(ks[i], ks[a]);
          assert !(a != i && Touch(ks[i], ks[a]) && ks[a].y == Some(v)) by {
            assert !Blocked(ks, i, v);
          }
        } else {
          assert next[a] == ks[a] && next[b] == ks[b];
        }
      }
      assert StackFrom(ks, i) == StackFrom(next, i + 1);
      StackFromSeparates(next, i + 1);
    }
  }

  /** Stacking leaves no two touching k-mers in the same lane. */
  lemma StackedSeparates(ks: seq<Kmer>)
    ensures var r := Stacked(ks);
      forall a, b :: 0 <= a < |r| && 0 <= b < |r| && a != b && Touch(r[a], r[b]) ==> r[a].y != r[b].y
  {
    StackFromSeparates(ks, 0);
    var r := Stacked(ks);
    forall a, b | 0 <= a < |r| && 0 <= b < |r| && a != b && Touch(r[a], r[b])
      ensures r[a].y != r[b].y
    {
      if b < a {
        assert Touch(r[b], r[a]);
      }
    }
  }

  /** Each k-mer's lane is the lowest one free when its turn came: against
      the new lanes of the k-mers before it and the old lanes of those
      after it. */
  lemma {:induction false} StackFromLowestFree(ks: seq<Kmer>, i: nat)
    requires i <= |ks|
    ensures var r := StackFrom(ks, i);
      forall k :: i <= k < |ks| ==> r[k].y == Some(FreeFrom(r[..k] + ks[k..], k, 1))
    decreases |ks| - i
  {
    if i < |ks| {
      var next := ks[i := ks[i].(y := Some(FreeFrom(ks, i, 1)))];
      var r := StackFrom(ks, i);
      assert r == StackFrom(next, i + 1);
      StackFromLowestFree(next, i + 1);
      forall k | i <= k < |ks|
        ensures r[k].y == Some(FreeFrom(r[..k] + ks[k..], k, 1))
      {
        if k == i {
          assert r[..i] + ks[i..] == ks;
        } else {
          assert next[k..] == ks[k..];
        }
      }
    }
  }

  /** The lane search of `initFeatures` for the k-mer at `i`: from lane 1,
      pass over all other k-mers, moving up a lane at each touching one in
      the current lane, until a pass moves no more. */
  method LowestFreeLane(ks: seq<Kmer>, i: nat) returns (y: int)
    requires i < |ks|
    ensures y == FreeFrom(ks, i, 1)
    ensures y >= 1 && !Blocked(ks, i, y) && forall w :: 1 <= w < y ==> Blocked(ks, i, w)
  {
    var a := ks[i];
    y := 1;
    var changed := true;
    ghost var target := FreeFrom(ks, i, 1);
    while changed
      invariant 1 <= y <= target && FreeFrom(ks, i, y) == target
      invariant !changed ==> !Blocked(ks, i, y)
      decreases target - y + (if changed then 1 else 0)
    {
      changed := false;
      ghost var y0 := y;
      var j := 0;
      while j < |ks|
        invariant 0 <= j <= |ks|
        invariant y0 <= y <= target && FreeFrom(ks, i, y) == target
        invariant changed <==> y > y0
        invariant !changed ==> forall m :: 0 <= m < j && m != i && Touch(a, ks[m]) ==> ks[m].y != Some(y)
      {
        if i != j {
          var b := ks[j];
          if Touch(a, b) && b.y.Some? && b.y.value == y {
            assert Blocked(ks, i, y);
            y := y + 1;
            changed := true;
          }
        }
        j := j + 1;
      }
    }
  }

  /** The outer loop of `initFeatures`: places each k-mer in turn in its
      lowest free lane and keeps the highest lane used. */
  method StackLanes(ks: seq<Kmer>) returns (out: seq<Kmer>, top: int)
    ensures out == Stacked(ks)
    ensures top == MaxLane(out)
  {
    out := ks;
    top := 0;
    var i := 0;
    while i < |out|
      invariant 0 <= i <= |out| && |out| == |ks|
      invariant StackFrom(out, i) == Stacked(ks)
      invariant top == MaxLane(out[..i])
    {
      var y := LowestFreeLane(out, i);
      var next := out[i := out[i].(y := Some(y))];
      assert StackFrom(next, i + 1) == Stacked(ks) by {
        assert StackFrom(out, i) == StackFrom(next, i + 1);
      }
      assert next[..i + 1][..i] == out[..i];
      out := next;
      if top < y {
        top := y;
      }
      i := i + 1;
    }
    assert out[..i] == out;
  }

  // -----------------------------------------------------------------------
  // Clicks

  /** The k-mer lies in lane `r` and covers base `x`. */
  predicate Clicked(k: Kmer, x: real, r: int) {
    k.y == Some(r) && k.start as real <= x && k.end as real >= x
  }

  /** Index of the first k-mer the click hits. */
  function FirstClicked(ks: seq<Kmer>, x: real, r: int): (c: Option<nat>)
    ensures c.Some? ==> (c.value < |ks| && Clicked(ks[c.value], x, r) &&
                         forall k :: 0 <= k < c.value ==> !Clicked(ks[k], x, r))
    ensures c.None? ==> forall k :: 0 <= k < |ks| ==> !Clicked(ks[k], x, r)
  {
    if |ks| == 0 then None
    else if Clicked(ks[0], x, r) then Some(0)
    else
      var c := FirstClicked(ks[1..], x, r);
      if c.Some? then Some(c.value + 1) else None
  }

  /** After stacking, a click on a base of a k-mer in its lane finds that
      k-mer and no other. */
  lemma StackedClickFindsKmer(ks: seq<Kmer>, k: nat, x: real, r: int)
    requires k < |ks|
    requires Stacked(ks)[k].start as real <= x <= Stacked(ks)[k].end as real
    requires Stacked(ks)[k].y == Some(r)
    ensures FirstClicked(Stacked(ks), x, r) == Some(k)
  {
    var s := Stacked(ks);
    StackedSeparates(ks);
    var c := FirstClicked(s, x, r);
    assert Clicked(s[k], x, r);
    if c.value != k {
      CommonBaseTouches(s[c.value], s[k], x);
      assert false;
    }
  }

  /** Scaling by a non-negative factor keeps the order. */
  lemma MulMono(a: int, b: int, c: int)
    requires a <= b && c >= 0
    ensures a * c <= b * c
  {
    assert b * c - a * c == (b - a) * c;
  }

  // -----------------------------------------------------------------------
  // Colour

  /** How a k-mer is painted: a named colour, or the accuracy shade given
      by its red channel (blue is 255 less red), NaN as `None`. */
  datatype Paint = Css(name: string) | Accuracy(red: Option<real>)

  /** The accuracy shade's red channel: 0 without a best value; otherwise
      the best value's place between the threshold and 100, scaled to 255
      (NaN without a threshold or when the threshold is 100). */
  function AccuracyRed(bestValue: Option<real>, threshold: Option<real>): (red: Option<real>)
    ensures bestValue.None? ==> red == Some(0.0)
    ensures bestValue.Some? && (threshold.None? || threshold.value == 100.0) ==> red.None?
    ensures (bestValue.Some? && threshold.Some? && threshold.value < 100.0 &&
             threshold.value <= bestValue.value <= 100.0) ==> red.Some? && 0.0 <= red.value <= 255.0
    ensures bestValue.Some? && threshold.Some? && bestValue.value == threshold.value != 100.0 ==> red == Some(0.0)
    ensures bestValue.Some? && threshold.Some? && threshold.value != 100.0 && bestValue.value == 100.0 ==> red == Some(255.0)
  {
    if bestValue.None? then Some(0.0)
    else if threshold.None? || threshold.value == 100.0 then None
    else
      var t, b := threshold.value, bestValue.value;
      ShadeAtEnds(t);
      if t < 100.0 && t <= b <= 100.0 then
        ShadeInRange(b, t);
        Some(((b - t) * 255.0) / (100.0 - t))
      else Some(((b - t) * 255.0) / (100.0 - t))
  }

  /** Between the threshold and 100 the shade is a byte value. */
  lemma ShadeInRange(b: real, t: real)
    requires t < 100.0 && t <= b <= 100.0
    ensures 0.0 <= ((b - t) * 255.0) / (100.0 - t) <= 255.0
  {
    QuotientWithin((b - t) * 255.0, 100.0 - t, 255.0);
  }

  /** The shade is 0 at the threshold and 255 at 100. */
  lemma ShadeAtEnds(t: real)
    requires t != 100.0
    ensures ((t - t) * 255.0) / (100.0 - t) == 0.0
    ensures ((100.0 - t) * 255.0) / (100.0 - t) == 255.0
  {
    Cancel(255.0, 100.0 - t);
  }

  /** A non-zero factor cancels against the same divisor. */
  lemma Cancel(c: real, d: real)
    requires d != 0.0
    ensures (d * c) / d == c
  {
    if d < 0.0 {
      assert (d * c) / d == ((-d) * (-c)) / (-d) * (-1.0);
    }
  }

  /** A higher best value never gets less red. */
  lemma AccuracyRedMonotone(b1: real, b2: real, t: real)
    requires t < 100.0 && b1 <= b2
    ensures AccuracyRed(Some(b1), Some(t)).value <= AccuracyRed(Some(b2), Some(t)).value
  {
    var d := 100.0 - t;
    assert (b2 - t) * 255.0 - (b1 - t) * 255.0 == (b2 - b1) * 255.0;
    assert ((b2 - t) * 255.0) / d - ((b1 - t) * 255.0) / d == ((b2 - b1) * 255.0) / d;
  }

  /** The paint of `renderAlignment`: by strand, by accuracy, or black. */
  function KmerPaint(colorBy: string, k: Kmer, threshold: Option<real>): (p: Paint)
    ensures colorBy == "strand" ==> p == Css(if k.strand == "-" then "rgb(239,62,54)" else "rgb(79,117,155 )")
    ensures colorBy == "accuracy" ==> p == Accuracy(AccuracyRed(k.bestValue, threshold))
    ensures colorBy != "strand" && colorBy != "accuracy" ==> p == Css("black")
  {
    if colorBy == "strand" then Css(if k.strand == "-" then "rgb(239,62,54)" else "rgb(79,117,155 )")
    else if colorBy == "accuracy" then Accuracy(AccuracyRed(k.bestValue, threshold))
    else Css("black")
  }

  /** What a track holds between calls: every k-mer sits in a lane from 1
      on, touching k-mers in different lanes, and a non-empty list reaches
      exactly `top`, which is at least 1. */
  predicate WellStacked(ks: seq<Kmer>, top: int) {
    top >= 1 &&
    (forall k :: 0 <= k < |ks| ==> ks[k].y.Some? && ks[k].y.value >= 1) &&
    Separated(ks, |ks|) &&
    (|ks| > 0 ==> top == MaxLane(ks))
  }

  /** A non-empty stacked list is well stacked up to its highest lane. */
  lemma StackedWellStacked(ks: seq<Kmer>)
    requires |ks| > 0
    ensures WellStacked(Stacked(ks), MaxLane(Stacked(ks)))
  {
    var r := Stacked(ks);
    assert r[0].y.value <= MaxLane(r);
    StackedSeparates(ks);
  }

  // -----------------------------------------------------------------------
  // The track object

  class KmerTrack {
    /** `request_type`, which selects the bar height. */
    const requestType: string
    /** Pixel height of one lane. */
    const barHeight: int
    /** `max_y`: the highest lane of the last stacking. */
    var maxY: int
    var features: seq<Kmer>
    var colorBy: string
    /** The classification threshold, once the source's info arrives. */
    var threshold: Option<real>

    /** Lanes have a positive height and the stored k-mers are stacked up
        to `maxY`. */
    predicate Valid()
      reads this
    {
      barHeight > 0 && WellStacked(features, maxY)
    }

    /** `init`: 20-pixel lanes for k-mer requests, 5 otherwise; one lane,
        colour by accuracy, nothing stacked yet. */
    constructor(requestType: string)
      ensures this.requestType == requestType
      ensures barHeight == (if requestType == "kmers" then 20 else 5)
      ensures maxY == 1 && features == [] && colorBy == "accuracy" && threshold.None?
      ensures Valid()
    {
      this.requestType := requestType;
      barHeight := if requestType == "kmers" then 20 else 5;
      maxY := 1;
      features := [];
      colorBy := "accuracy";
      threshold := None;
    }

    /** The info request resolves with the threshold. */
    method SetThreshold(t: real)
      requires Valid()
      modifies this
      ensures threshold == Some(t)
      ensures maxY == old(maxY) && features == old(features) && colorBy == old(colorBy)
      ensures Valid()
    {
      threshold := Some(t);
    }

    /** `initFeatures`: takes the list; when it is not empty, sorts it (which
        keeps its order) and stacks every k-mer into the lowest free lane,
        recording the highest lane. An empty list leaves `maxY` as it was. */
    method InitFeatures(input: seq<Kmer>)
      requires Valid()
      modifies this
      ensures |input| == 0 ==> features == input && maxY == old(maxY)
      ensures |input| > 0 ==> features == Stacked(input)
      ensures |input| > 0 ==> maxY == MaxLane(features) && maxY >= 1
      ensures colorBy == old(colorBy) && threshold == old(threshold)
      ensures Valid()
    {
      if |input| == 0 {
        assert WellStacked(input, maxY);
        features := input;
      } else {
        var ks := SortBy(input, AsWrittenOrder);
        AsWrittenSortKeepsOrder(input);
        var stacked, top := StackLanes(ks);
        StackedWellStacked(ks);
        assert WellStacked(stacked, top);
        features := stacked;
        maxY := top;
      }
    }

    /** `computePixelHeight`: one lane's height for an empty list; otherwise
        stacks the list and makes room for every lane up to the highest and
        one more. Every stacked bar then lies within that height. */
    method ComputePixelHeight(input: seq<Kmer>) returns (h: int)
      requires Valid()
      modifies this
      ensures |input| == 0 ==> h == barHeight && features == old(features) && maxY == old(maxY)
      ensures |input| > 0 ==> features == Stacked(input) && maxY == MaxLane(features)
      ensures |input| > 0 ==> h == (maxY + 1) * barHeight
      ensures |input| > 0 ==> forall k :: 0 <= k < |features| ==> (features[k].y.value + 1) * barHeight <= h
      ensures colorBy == old(colorBy) && threshold == old(threshold)
      ensures Valid()
    {
      if |input| == 0 {
        return barHeight;
      }
      InitFeatures(input);
      var top, bar, fs := maxY, barHeight, features;
      h := (top + 1) * bar;
      forall k | 0 <= k < |fs|
        ensures (fs[k].y.value + 1) * bar <= h
      {
        MulMono(fs[k].y.value + 1, top + 1, bar);
      }
    }

    /** `popupData`: the lane under the mouse cursor, then the first k-mer in
        that lane covering the clicked base, which the track hands to its
        click handler (`popupData` itself always answers null). */
    method PopupData(x: real, clickY: real) returns (clicked: Option<Kmer>)
      requires Valid()
      ensures var c := FirstClicked(features, x, Floor(clickY / barHeight as real));
        clicked == (if c.Some? then Some(features[c.value]) else None)
    {
      var fs := features;
      var r := Floor(clickY / barHeight as real);
      var i := 0;
      while i < |fs|
        invariant 0 <= i <= |fs|
        invariant forall k :: 0 <= k < i ==> !Clicked(fs[k], x, r)
      {
        var feat := fs[i];
        if feat.y == Some(r) && feat.start as real <= x && feat.end as real >= x {
          assert FirstClicked(fs, x, r) == Some(i);
          return Some(feat);
        }
        i := i + 1;
      }
      return None;
    }
  }
}
