/** The IRFinder record parser: tab-delimited lines with a fixed 21-column
    schema become intron-retention features with derived fields. */
module IRFinderParser {
  import opened Wrappers
  import opened JsMath
  import opened JsText

  /** The column schema, in file order. */
  const Columns: seq<string> := ["Chr", "Start", "End", "Name", "Null", "Strand", "ExcludedBases",
    "Coverage", "IntronDepth", "IntronDepth25Percentile", "IntronDepth50Percentile",
    "IntronDepth75Percentile", "ExonToIntronReadsLeft", "ExonToIntronReadsRight",
    "IntronDepthFirst50bp", "IntronDepthLast50bp", "SpliceLeft", "SpliceRight", "SpliceExact",
    "IRratio", "Warnings"]

  /** Bases of flanking context added on each side of an intron. */
  const FlankMargin: int := 15

  const Tab: char := '\t'

  /** The pixel rectangle `draw` caches on a feature (`feature.y`); `None`
      stands for a coordinate that is not a finite number. */
  datatype YBox = YBox(start: Option<real>, end: Option<real>, row: Option<int>)

  /** One intron-retention record. Numeric fields are `None` where the
      source's parse gives NaN. `row` and `y` are the two annotations that
      layout and drawing write later; the parser leaves them undefined. */
  datatype Feature = Feature(
    chr: string,
    start: Option<int>,
    end: Option<int>,
    intronType: Option<string>,
    strand: string,
    intronDepth: Option<real>,
    exonToIntronLeft: Option<real>,
    exonToIntronRight: Option<real>,
    flankLeft: Option<real>,
    flankRight: Option<real>,
    spliceLeft: Option<int>,
    spliceRight: Option<int>,
    spliceExact: Option<int>,
    exonLeft: Option<int>,
    exonRight: Option<int>,
    value: Option<int>,
    irRatio: Option<real>,
    warning: string,
    tokens: seq<string>,
    row: Option<int>,
    y: Option<YBox>)

  /** One entry of the popup listing. */
  datatype Field = Field(name: string, value: string)

  /** `n + d` where `n` may be NaN. */
  function Shift(n: Option<int>, d: int): (r: Option<int>)
    ensures r.Some? <==> n.Some?
    ensures r.Some? ==> r.value - d == n.value
  {
    if n.Some? then Some(n.value + d) else None
  }

  /** `Math.ceil(a + b)` where either may be NaN. */
  function CeilSum(a: Option<real>, b: Option<int>): (r: Option<int>)
    ensures r.Some? <==> a.Some? && b.Some?
    ensures r.Some? ==> a.value + b.value as real <= r.value as real < a.value + b.value as real + 1.0
  {
    if a.Some? && b.Some? then Some(Ceil(a.value + b.value as real)) else None
  }

  /** `Math.max(a, b)`: NaN if either is NaN. */
  function MaxOf(a: Option<int>, b: Option<int>): (r: Option<int>)
    ensures r.Some? <==> a.Some? && b.Some?
    ensures r.Some? ==> r.value >= a.value && r.value >= b.value
    ensures r.Some? ==> r.value == a.value || r.value == b.value
  {
    if a.Some? && b.Some? then Some(if a.value >= b.value then a.value else b.value) else None
  }

  /** Third `/`-separated field of the `Name` column, undefined when there
      are fewer than three fields. */
  function IntronType(name: string): (r: Option<string>)
    ensures r.Some? <==> |Split(name, '/')| >= 3
    ensures r.Some? ==> '/' !in r.value
  {
    var parts := Split(name, '/');
    if |parts| >= 3 then Some(parts[2]) else None
  }

  /** The `IRFinderFeature` constructor. */
  function MakeFeature(tokens: seq<string>): (f: Feature)
    requires |tokens| == |Columns|
    ensures f.tokens == tokens && f.chr == tokens[0] && f.strand == tokens[5] && f.warning == tokens[20]
    ensures f.row.None? && f.y.None?
    ensures f.start.Some? <==> ParseInt(tokens[1]).Some?
    ensures f.start.Some? ==> f.start.value == ParseInt(tokens[1]).value - FlankMargin
    ensures f.end.Some? <==> ParseInt(tokens[2]).Some?
    ensures f.end.Some? ==> f.end.value == ParseInt(tokens[2]).value + FlankMargin
    ensures f.intronType == IntronType(tokens[3])
    ensures f.intronDepth == ParseFloat(tokens[8])
    ensures f.exonToIntronLeft == ParseFloat(tokens[12]) && f.exonToIntronRight == ParseFloat(tokens[13])
    ensures f.flankLeft == ParseFloat(tokens[14]) && f.flankRight == ParseFloat(tokens[15])
    ensures f.spliceLeft == ParseInt(tokens[16]) && f.spliceRight == ParseInt(tokens[17])
    ensures f.spliceExact == ParseInt(tokens[18])
    ensures f.exonLeft.Some? <==> f.flankLeft.Some? && f.spliceLeft.Some?
    ensures f.exonRight.Some? <==> f.flankRight.Some? && f.spliceRight.Some?
    ensures f.exonLeft.Some? ==>
      f.flankLeft.value + f.spliceLeft.value as real <= f.exonLeft.value as real < f.flankLeft.value + f.spliceLeft.value as real + 1.0
    ensures f.exonRight.Some? ==>
      f.flankRight.value + f.spliceRight.value as real <= f.exonRight.value as real < f.flankRight.value + f.spliceRight.value as real + 1.0
    ensures f.value.Some? <==> f.exonLeft.Some? && f.exonRight.Some?
    ensures f.value.Some? ==> f.value.value >= f.exonLeft.value && f.value.value >= f.exonRight.value
    ensures f.value.Some? ==> f.value.value == f.exonLeft.value || f.value.value == f.exonRight.value
    ensures f.irRatio == ParseFloat(tokens[19])
  {
    var flankLeft := ParseFloat(tokens[14]);
    var flankRight := ParseFloat(tokens[15]);
    var spliceLeft := ParseInt(tokens[16]);
    var spliceRight := ParseInt(tokens[17]);
    var exonLeft := CeilSum(flankLeft, spliceLeft);
    var exonRight := CeilSum(flankRight, spliceRight);
    Feature(
      chr := tokens[0],
      start := Shift(ParseInt(tokens[1]), -FlankMargin),
      end := Shift(ParseInt(tokens[2]), FlankMargin),
      intronType := IntronType(tokens[3]),
      strand := tokens[5],
      intronDepth := ParseFloat(tokens[8]),
      exonToIntronLeft := ParseFloat(tokens[12]),
      exonToIntronRight := ParseFloat(tokens[13]),
      flankLeft := flankLeft,
      flankRight := flankRight,
      spliceLeft := spliceLeft,
      spliceRight := spliceRight,
      spliceExact := ParseInt(tokens[18]),
      exonLeft := exonLeft,
      exonRight := exonRight,
      value := MaxOf(exonLeft, exonRight),
      irRatio := ParseFloat(tokens[19]),
      warning := tokens[20],
      tokens := tokens,
      row := None,
      y := None)
  }

  /** Padding both ends by the flank margin widens a parsed span by exactly
      twice the margin. */
  lemma SpanWidened(tokens: seq<string>)
    requires |tokens| == |Columns|
    requires ParseInt(tokens[1]).Some? && ParseInt(tokens[2]).Some?
    ensures MakeFeature(tokens).start.Some? && MakeFeature(tokens).end.Some?
    ensures MakeFeature(tokens).end.value - MakeFeature(tokens).start.value
         == ParseInt(tokens[2]).value - ParseInt(tokens[1]).value + 2 * FlankMargin
  {
  }

  /** The intron type of a name written `a/b/t...` is `t`. */
  lemma {:induction false} IntronTypeOfName(parts: seq<string>)
    requires |parts| >= 3
    requires forall k :: 0 <= k < |parts| ==> '/' !in parts[k]
    ensures IntronType(Join(parts, '/')) == Some(parts[2])
  {
    SplitJoin(parts, '/');
  }

  /** A line is kept when it has exactly the schema's number of tab-separated
      tokens and is not the header line. */
  predicate Accepts(line: string) {
    var tokens := Split(line, Tab);
    |tokens| == |Columns| && tokens[0] != Columns[0]
  }

  /** Features of the kept lines, in line order. */
  function ParsedLines(lines: seq<string>): (r: seq<Feature>)
    ensures |r| <= |lines|
    decreases |lines|
  {
    if |lines| == 0 then []
    else
      var line := lines[|lines| - 1];
      ParsedLines(lines[..|lines| - 1]) + (if Accepts(line) then [MakeFeature(Split(line, Tab))] else [])
  }

  /** `parseFeatures`: a falsy argument (`None`) gives null; otherwise the
      lines the data wrapper yields are scanned in order. */
  method ParseFeatures(data: Option<seq<string>>) returns (r: Option<seq<Feature>>)
    ensures data.None? ==> r.None?
    ensures data.Some? ==> r == Some(ParsedLines(data.value))
  {
    if data.None? {
      return None;
    }
    var lines := data.value;
    var allFeatures: seq<Feature> := [];
    var i := 0;
    while i < |lines|
      invariant 0 <= i <= |lines|
      invariant allFeatures == ParsedLines(lines[..i])
    {
      var line := lines[i];
      var tokens := Split(line, Tab);
      ParsedLinesStep(lines, i);
      if |tokens| == |Columns| && tokens[0] != Columns[0] {
        allFeatures := allFeatures + [MakeFeature(tokens)];
      }
      i := i + 1;
    }
    assert lines[..i] == lines;
    return Some(allFeatures);
  }

  /** One more line extends the parsed prefix by that line's feature when it
      is accepted, and by nothing otherwise. */
  lemma ParsedLinesStep(lines: seq<string>, i: nat)
    requires i < |lines|
    ensures var tokens := Split(lines[i], Tab);
      ParsedLines(lines[..i + 1]) ==
      ParsedLines(lines[..i]) + (if |tokens| == |Columns| && tokens[0] != Columns[0] then [MakeFeature(tokens)] else [])
  {
    assert lines[..i + 1][..i] == lines[..i];
  }

  /** Indices of the kept lines, ascending. */
  function AcceptedIndices(lines: seq<string>): (idx: seq<nat>)
    decreases |lines|
  {
    if |lines| == 0 then []
    else
      var n := |lines| - 1;
      AcceptedIndices(lines[..n]) + (if Accepts(lines[n]) then [n] else [])
  }

  /** The accepted indices are ascending, in range, and exactly the lines
      that pass `Accepts`. */
  lemma {:induction false} AcceptedIndicesSelect(lines: seq<string>)
    ensures var idx := AcceptedIndices(lines);
      (forall k :: 0 <= k < |idx| ==> idx[k] < |lines|) &&
      (forall k, m :: 0 <= k < m < |idx| ==> idx[k] < idx[m]) &&
      (forall i :: 0 <= i < |lines| ==> (Accepts(lines[i]) <==> i in idx))
    decreases |lines|
  {
    if |lines| > 0 {
      var n := |lines| - 1;
      var prefix := lines[..n];
      AcceptedIndicesSelect(prefix);
      var idx := AcceptedIndices(lines);
      var pidx := AcceptedIndices(prefix);
      assert idx == pidx + (if Accepts(lines[n]) then [n] else []);
      forall i | 0 <= i < |lines|
        ensures Accepts(lines[i]) <==> i in idx
      {
        if i < n {
          assert lines[i] == prefix[i];
          assert (i in pidx) <==> (i in idx);
        }
      }
    }
  }

  /** The parser keeps exactly the accepted lines, each turned into its
      feature, in input order. */
  lemma ParsedLinesSelect(lines: seq<string>)
    ensures var idx := AcceptedIndices(lines);
      |ParsedLines(lines)| == |idx| &&
      (forall k :: 0 <= k < |idx| ==>
         (idx[k] < |lines| && Accepts(lines[idx[k]]) &&
          ParsedLines(lines)[k] == MakeFeature(Split(lines[idx[k]], Tab))))
  {
    ParsedLinesKeepEach(lines);
    KeepEachSelect(lines, LineFeature);
  }

  /** The feature of an accepted line. */
  function LineFeature(line: string): Feature
    requires Accepts(line)
  {
    MakeFeature(Split(line, Tab))
  }

  /** The values `make` gives the accepted lines, in line order. */
  function KeepEach<T>(lines: seq<string>, make: string --> T): seq<T>
    requires forall line :: Accepts(line) ==> make.requires(line)
    decreases |lines|
  {
    if |lines| == 0 then []
    else
      var n := |lines| - 1;
      KeepEach(lines[..n], make) + (if Accepts(lines[n]) then [make(lines[n])] else [])
  }

  /** The parser's features are `KeepEach` with the line's feature. */
  lemma {:induction false} ParsedLinesKeepEach(lines: seq<string>)
    ensures ParsedLines(lines) == KeepEach(lines, LineFeature)
    decreases |lines|
  {
    if |lines| > 0 {
      ParsedLinesKeepEach(lines[..|lines| - 1]);
    }
  }

  /** `KeepEach` keeps exactly the accepted lines, in order. */
  lemma {:induction false} KeepEachSelect<T>(lines: seq<string>, make: string --> T)
    requires forall line :: Accepts(line) ==> make.requires(line)
    ensures var idx := AcceptedIndices(lines);
      |KeepEach(lines, make)| == |idx| &&
      (forall k :: 0 <= k < |idx| ==>
         (idx[k] < |lines| && Accepts(lines[idx[k]]) && KeepEach(lines, make)[k] == make(lines[idx[k]])))
    decreases |lines|
  {
    if |lines| > 0 {
      var n := |lines| - 1;
      var prefix := lines[..n];
      KeepEachSelect(prefix, make);
      var idx := AcceptedIndices(lines);
      var pidx := AcceptedIndices(prefix);
      var out := KeepEach(lines, make);
      var pout := KeepEach(prefix, make);
      if Accepts(lines[n]) {
        assert idx == pidx + [n];
        assert out == pout + [make(lines[n])];
        forall k | 0 <= k < |idx|
          ensures idx[k] < |lines| && Accepts(lines[idx[k]]) && out[k] == make(lines[idx[k]])
        {
          if k < |pidx| {
            assert out[k] == pout[k] && idx[k] == pidx[k];
            assert prefix[pidx[k]] == lines[idx[k]];
          }
        }
      } else {
        assert idx == pidx && out == pout;
        forall k | 0 <= k < |idx|
          ensures idx[k] < |lines| && Accepts(lines[idx[k]]) && out[k] == make(lines[idx[k]])
        {
          assert prefix[pidx[k]] == lines[idx[k]];
        }
      }
    }
  }

  /** `popupData`: one (column, token) pair per column in column order,
      leaving out the `Null` column. */
  function PopupData(f: Feature): (r: seq<Field>)
    requires |f.tokens| == |Columns|
    ensures |r| == |Columns| - 1
    ensures forall k :: 0 <= k < |r| ==> r[k].name != "Null"
    ensures forall k :: 0 <= k < 4 ==> r[k] == Field(Columns[k], f.tokens[k])
    ensures forall k :: 4 <= k < |r| ==> r[k] == Field(Columns[k + 1], f.tokens[k + 1])
  {
    var fields := seq(|Columns|, k requires 0 <= k < |Columns| => Field(Columns[k], f.tokens[k]));
    NullOnlyAtFour();
    DropFifth(fields, "Null");
    DropNamed(fields, "Null")
  }

  /** Filtering out a name held by the fifth entry alone removes just that entry. */
  lemma {:induction false} DropFifth(fields: seq<Field>, name: string)
    requires |fields| > 4 && fields[4].name == name
    requires forall k :: 0 <= k < |fields| && k != 4 ==> fields[k].name != name
    ensures DropNamed(fields, name) == fields[..4] + fields[5..]
  {
    var a, x, b := fields[..4], fields[4], fields[5..];
    assert fields == a + [x] + b;
    assert forall k :: 0 <= k < |a| ==> a[k] == fields[k];
    assert forall k :: 0 <= k < |b| ==> b[k] == fields[k + 5];
    DropOne(a, x, b, name);
  }

  /** Filtering out the name of one entry that alone holds it removes just that entry. */
  lemma {:induction false} DropOne(a: seq<Field>, x: Field, b: seq<Field>, name: string)
    requires x.name == name
    requires forall k :: 0 <= k < |a| ==> a[k].name != name
    requires forall k :: 0 <= k < |b| ==> b[k].name != name
    ensures DropNamed(a + [x] + b, name) == a + b
  {
    assert a + [x] + b == a + ([x] + b);
    DropNamedConcat(a, [x] + b, name);
    DropNamedConcat([x], b, name);
    assert [x][1..] == [];
    assert DropNamed([x], name) == [];
    DropNamedNone(a, name);
    DropNamedNone(b, name);
    assert [] + b == b;
  }

  /** Only the fifth column is called `Null`. */
  lemma NullOnlyAtFour()
    ensures Columns[4] == "Null"
    ensures forall k :: 0 <= k < |Columns| && k != 4 ==> Columns[k] != "Null"
  {
  }

  lemma {:induction false} DropNamedConcat(a: seq<Field>, b: seq<Field>, name: string)
    ensures DropNamed(a + b, name) == DropNamed(a, name) + DropNamed(b, name)
    decreases |a|
  {
    if |a| > 0 {
      assert (a + b)[1..] == a[1..] + b;
      DropNamedConcat(a[1..], b, name);
    } else {
      assert a + b == b;
    }
  }

  lemma {:induction false} DropNamedNone(a: seq<Field>, name: string)
    requires forall k :: 0 <= k < |a| ==> a[k].name != name
    ensures DropNamed(a, name) == a
    decreases |a|
  {
    if |a| > 0 {
      DropNamedNone(a[1..], name);
      assert [a[0]] + a[1..] == a;
    }
  }

  /** `fields.filter(f => f.name != name)`. */
  function DropNamed(fields: seq<Field>, name: string): (r: seq<Field>)
    ensures forall k :: 0 <= k < |r| ==> r[k].name != name
    decreases |fields|
  {
    if |fields| == 0 then []
    else (if fields[0].name == name then [] else [fields[0]]) + DropNamed(fields[1..], name)
  }

  /** `getAttribute(name)`: the token under the first column called `name`,
      undefined when no column has that name. */
  function GetAttribute(f: Feature, name: string): (r: Option<string>)
    requires |f.tokens| == |Columns|
    ensures r.Some? <==> name in Columns
    ensures r.Some? ==> r.value == f.tokens[FindIndex(Columns, name)]
  {
    FindToken(Columns, f.tokens, name, 0)
  }

  /** The search of `getAttribute` from column `k` on, over the column
      names `cols` and the line's tokens. */
  function FindToken(cols: seq<string>, tokens: seq<string>, name: string, k: nat): (r: Option<string>)
    requires |tokens| == |cols| && k <= |cols|
    requires name !in cols[..k]
    ensures r.Some? <==> name in cols[k..]
    ensures r.Some? ==> r.value == tokens[FindIndex(cols, name)]
    decreases |cols| - k
  {
    if k == |cols| then None
    else if cols[k] == name then
      assert FindIndex(cols, name) == k;
      Some(tokens[k])
    else
      assert cols[..k + 1] == cols[..k] + [cols[k]];
      FindToken(cols, tokens, name, k + 1)
  }

  /** `parseHeader`: the column schema. */
  function ParseHeader(): (r: seq<string>)
    ensures |r| == 21 && r[0] == "Chr" && r[4] == "Null"
  {
    Columns
  }

  /** A line whose first token is the schema's first column name, such as
      the header line itself, is never kept. */
  lemma HeaderLineRejected(rest: string)
    ensures !Accepts(ParseHeader()[0] + [Tab] + rest)
  {
    SplitPrefix(ParseHeader()[0], Tab, rest);
  }

  /** The header written out as a line is skipped. */
  lemma HeaderSkipped()
    ensures !Accepts(Join(ParseHeader(), Tab))
  {
    var cols := ParseHeader();
    assert Join(cols, Tab) == cols[0] + [Tab] + Join(cols[1..], Tab);
    HeaderLineRejected(Join(cols[1..], Tab));
  }

  /** A line made of the schema's number of tab-free tokens is kept exactly
      when its first token is not the header's. */
  lemma AcceptsJoined(tokens: seq<string>)
    requires |tokens| == |Columns|
    requires forall k :: 0 <= k < |tokens| ==> Tab !in tokens[k]
    ensures Accepts(Join(tokens, Tab)) <==> tokens[0] != "Chr"
  {
    SplitJoin(tokens, Tab);
    assert Columns[0] == "Chr";
  }

  lemma ParseSmallInts()
    ensures ParseInt("100") == Some(100) && ParseInt("200") == Some(200)
    ensures ParseInt("3") == Some(3) && ParseInt("4") == Some(4)
  {
    assert NatToString(1) == "1" && NatToString(2) == "2";
    assert NatToString(10) == "10" && NatToString(20) == "20";
    assert NatToString(100) == "100" && NatToString(200) == "200";
    ParseIntOfIntToString(100, "");
    ParseIntOfIntToString(200, "");
    ParseIntOfIntToString(3, "");
    ParseIntOfIntToString(4, "");
    assert IntToString(100) + "" == "100" && IntToString(200) + "" == "200";
    assert IntToString(3) + "" == "3" && IntToString(4) + "" == "4";
  }

  lemma ParseSmallReals()
    ensures ParseFloat("0.25") == Some(0.25)
    ensures ParseFloat("1.0") == Some(1.0) && ParseFloat("2.0") == Some(2.0)
  {
    assert ParseFloat("0.25") == Some(0.25) by {
      assert DigitPrefix("0.25") == "0";
      assert "0.25"[1..] == ".25" && ".25"[1..] == "25";
      assert DigitPrefix("25") == "25";
      assert FracValue("25") == 0.25;
    }
    assert ParseFloat("1.0") == Some(1.0) by {
      assert DigitPrefix("1.0") == "1" && DigitPrefix("0") == "0";
      assert "1.0"[1..] == ".0" && ".0"[1..] == "0";
    }
    assert ParseFloat("2.0") == Some(2.0) by {
      assert DigitPrefix("2.0") == "2" && DigitPrefix("0") == "0";
      assert "2.0"[1..] == ".0" && ".0"[1..] == "0";
    }
  }

  /** A worked record: start and end are padded by the flank margin, the
      intron type is the third field of the name, the value is the higher
      exon, and ratio and warning are read from their columns. */
  lemma ExampleRecord(tokens: seq<string>)
    requires |tokens| == |Columns|
    requires tokens[1] == "100" && tokens[2] == "200" && tokens[3] == "A/B/clean"
    requires tokens[14] == "1.0" && tokens[15] == "2.0" && tokens[16] == "3" && tokens[17] == "4"
    requires tokens[19] == "0.25" && tokens[20] == "-"
    ensures var f := MakeFeature(tokens);
      f.start == Some(85) && f.end == Some(215) && f.intronType == Some("clean") &&
      f.irRatio == Some(0.25) && f.warning == "-" && f.value == Some(6)
  {
    assert ParseInt(tokens[1]) == Some(100) && ParseInt(tokens[2]) == Some(200) &&
           ParseInt(tokens[16]) == Some(3) && ParseInt(tokens[17]) == Some(4) by {
      ParseSmallInts();
    }
    assert ParseFloat(tokens[14]) == Some(1.0) && ParseFloat(tokens[15]) == Some(2.0) &&
           ParseFloat(tokens[19]) == Some(0.25) by {
      ParseSmallReals();
    }
    assert IntronType(tokens[3]) == Some("clean") by {
      ExampleIntronType();
    }
    ExampleSpan(tokens);
    ExampleValue(tokens);
  }

  /** The name `A/B/clean` has intron type `clean`. */
  lemma ExampleIntronType()
    ensures IntronType("A/B/clean") == Some("clean")
  {
    var parts := ["A", "B", "clean"];
    assert parts[1..] == ["B", "clean"] && parts[1..][1..] == ["clean"];
    assert Join(["B", "clean"], '/') == "B/clean";
    assert Join(parts, '/') == "A/B/clean";
    assert '/' !in parts[0] && '/' !in parts[1] && '/' !in parts[2];
    IntronTypeOfName(parts);
  }

  /** Positions 100 and 200 are padded to 85 and 215. */
  lemma ExampleSpan(tokens: seq<string>)
    requires |tokens| == |Columns|
    requires ParseInt(tokens[1]) == Some(100) && ParseInt(tokens[2]) == Some(200)
    ensures MakeFeature(tokens).start == Some(85) && MakeFeature(tokens).end == Some(215)
  {
  }

  /** Flank depths 1 and 2 with splice counts 3 and 4 give exons 4 and 6,
      so the value is the higher, 6. */
  lemma ExampleValue(tokens: seq<string>)
    requires |tokens| == |Columns|
    requires ParseFloat(tokens[14]) == Some(1.0) && ParseFloat(tokens[15]) == Some(2.0)
    requires ParseInt(tokens[16]) == Some(3) && ParseInt(tokens[17]) == Some(4)
    ensures var f := MakeFeature(tokens);
      f.exonLeft == Some(4) && f.exonRight == Some(6) && f.value == Some(6)
  {
    ExampleExonLeft(tokens);
    ExampleExonRight(tokens);
  }

  /** A flank depth of 1 with 3 spliced reads gives a left exon of 4. */
  lemma ExampleExonLeft(tokens: seq<string>)
    requires |tokens| == |Columns|
    requires ParseFloat(tokens[14]) == Some(1.0) && ParseInt(tokens[16]) == Some(3)
    ensures MakeFeature(tokens).exonLeft == Some(4)
  {
    assert CeilSum(Some(1.0), Some(3)) == Some(4);
  }

  /** A flank depth of 2 with 4 spliced reads gives a right exon of 6. */
  lemma ExampleExonRight(tokens: seq<string>)
    requires |tokens| == |Columns|
    requires ParseFloat(tokens[15]) == Some(2.0) && ParseInt(tokens[17]) == Some(4)
    ensures MakeFeature(tokens).exonRight == Some(6)
  {
    assert CeilSum(Some(2.0), Some(4)) == Some(6);
  }
}
