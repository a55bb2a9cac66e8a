/**
 * The two outputs built from the summaries: the line-oriented diagram markup
 * (a header, the who-applied lines, then one `Source [count] Target` line per
 * summary entry, boundary by boundary) and the parallel source / target /
 * value columns handed to the diagram renderer.
 */
module Markup {
  import opened Wrappers
  import opened Decimal
  import opened Records
  import opened Transitions
  import opened ValueCounts
  import opened Funnel

  const MeLead: string := "I applied to them ["
  const ThemLead: string := "They applied to me ["
  const ApplicationTail: string := "] Application"

  /**
   * The who-applied line for one `Who Applied?` value and its number of rows.
   * It says "I applied to them" exactly when the value is "Me" and "They
   * applied to me" otherwise, ends with "] Application", and the number
   * between its brackets reads back as the count.
   */
  function WhoLine(e: Entry): (line: string)
    ensures |line| > |MeLead| + |ApplicationTail|
    ensures e.key == "Me" <==> line[..|MeLead|] == MeLead
    ensures e.key != "Me" ==> line[..|ThemLead|] == ThemLead
    ensures line[|line| - |ApplicationTail|..] == ApplicationTail
    ensures var lead := if e.key == "Me" then MeLead else ThemLead;
      var digits := line[|lead|..|line| - |ApplicationTail|];
      AllDigits(digits) && ParseDigits(digits) == e.count
  {
    var lead := if e.key == "Me" then MeLead else ThemLead;
    var line := lead + NatToString(e.count) + ApplicationTail;
    ParseNatToString(e.count);
    assert line[|lead|..|line| - |ApplicationTail|] == NatToString(e.count);
    assert line[..|lead|] == lead;
    assert e.key != "Me" ==> line[0] == 'T';
    line
  }

  /** The who-applied lines: one per total, in the totals' order, each saying which way the application went. */
  function WhoAppliedSummary(totals: seq<Entry>): (lines: seq<string>)
    ensures |lines| == |totals|
    ensures forall i :: 0 <= i < |totals| ==> lines[i] == WhoLine(totals[i])
    ensures forall i :: 0 <= i < |totals| ==> |lines[i]| > |MeLead| && (lines[i][..|MeLead|] == MeLead <==> totals[i].key == "Me")
  {
    seq(|totals|, i requires 0 <= i < |totals| => WhoLine(totals[i]))
  }

  /**
   * The who-applied lines of a table: one per distinct `Who Applied?` value,
   * whose count is the number of rows with that value, the counts adding up
   * to the rows that have a value.
   */
  lemma WhoAppliedLines(recs: seq<Record>)
    ensures var totals := WhoTotals(recs);
      && |WhoAppliedSummary(totals)| == |totals|
      && (forall i :: 0 <= i < |totals| ==> totals[i].count == CountWho(recs, totals[i].key) >= 1)
      && (forall i, j :: 0 <= i < j < |totals| ==> totals[i].key != totals[j].key)
      && (forall v :: CountWho(recs, v) > 0 ==> exists i :: 0 <= i < |totals| && totals[i].key == v)
      && Total(totals) == Answered(recs)
  {
    var totals := WhoTotals(recs);
    CountTableLabels(totals, WhoValues(recs));
    WhoValuesCounts(recs);
    forall i, j | 0 <= i < j < |totals| ensures totals[i].key != totals[j].key {
      StringOrder.LessIrreflexive(totals[i].key);
    }
  }

  /** One edge of the diagram. */
  datatype Edge = Edge(source: string, target: string, value: nat)

  /** The markup line of an edge: `Source [value] Target`. */
  function Render(e: Edge): string
  {
    e.source + " [" + NatToString(e.value) + "] " + e.target
  }

  function RenderAll(edges: seq<Edge>): (lines: seq<string>)
    ensures |lines| == |edges|
  {
    seq(|edges|, i requires 0 <= i < |edges| => Render(edges[i]))
  }

  /**
   * `line` reads as an edge line from `stage` to `e`'s label: the stage and
   * " [", then the digits of `e`'s count, then "] " and the label.
   */
  ghost predicate EdgeLineFor(line: string, stage: string, e: Entry)
  {
    && |line| > |stage| + 2 + |e.key| + 2
    && line[..|stage| + 2] == stage + " ["
    && line[|line| - |e.key| - 2..] == "] " + e.key
    && var digits := line[|stage| + 2..|line| - |e.key| - 2];
       AllDigits(digits) && ParseDigits(digits) == e.count
  }

  /**
   * The markup lines of one summary, written as the source's f-strings do:
   * one per entry, each running from the boundary's stage through the
   * entry's count to its label.
   */
  function BoundaryLines(b: Boundary, summary: seq<Entry>): (lines: seq<string>)
    ensures |lines| == |summary|
    ensures forall i :: 0 <= i < |summary| ==> EdgeLineFor(lines[i], StageName(b), summary[i])
  {
    seq(|summary|, i requires 0 <= i < |summary| => BoundaryLine(StageName(b), summary[i]))
  }

  /** The markup line of one summary entry. */
  function BoundaryLine(stage: string, e: Entry): (line: string)
    ensures EdgeLineFor(line, stage, e)
  {
    var line := stage + " [" + NatToString(e.count) + "] " + e.key;
    ParseNatToString(e.count);
    assert line[|stage| + 2..|line| - |e.key| - 2] == NatToString(e.count);
    line
  }

  /** `final_output`: the header, the who-applied lines, then each boundary's lines. */
  function FinalOutput(header: string, recs: seq<Record>): (out: seq<string>)
    ensures |out| >= 1 && out[0] == header
  {
    [header]
      + WhoAppliedSummary(WhoTotals(recs))
      + BoundaryLines(Application, Summary(recs, Application))
      + BoundaryLines(Screening, Summary(recs, Screening))
      + BoundaryLines(FirstInterview, Summary(recs, FirstInterview))
      + BoundaryLines(SecondInterview, Summary(recs, SecondInterview))
  }

  /** The markup produced from the loaded rows, or the error that stops the run first. */
  function MarkupOf(header: string, rows: seq<Row>): (r: Result<seq<string>, ColumnError>)
    ensures r.Err? <==> TitleRaises(rows)
    ensures r.Err? ==> r.error == Normalise(rows).error
    ensures r.Ok? ==> r.value == FinalOutput(header, Normalise(rows).value) && r.value[0] == header
  {
    match Normalise(rows)
    case Err(e) => Err(e)
    case Ok(recs) => Ok(FinalOutput(header, recs))
  }

  /** The edges of one summary, all starting from the boundary's stage. */
  function EdgesFrom(b: Boundary, summary: seq<Entry>): (edges: seq<Edge>)
    ensures |edges| == |summary|
  {
    seq(|summary|, i requires 0 <= i < |summary| => Edge(StageName(b), summary[i].key, summary[i].count))
  }

  /** The edge list of the four summaries, boundary by boundary. */
  function SankeyEdges(application: seq<Entry>, screening: seq<Entry>,
                       firstInterview: seq<Entry>, secondInterview: seq<Entry>): seq<Edge>
  {
    EdgesFrom(Application, application) + EdgesFrom(Screening, screening)
      + EdgesFrom(FirstInterview, firstInterview) + EdgesFrom(SecondInterview, secondInterview)
  }

  /** The edge list of the funnel built from `recs`. */
  function FunnelEdges(recs: seq<Record>): seq<Edge>
  {
    SankeyEdges(Summary(recs, Application), Summary(recs, Screening),
                Summary(recs, FirstInterview), Summary(recs, SecondInterview))
  }

  function SourcesOf(edges: seq<Edge>): (s: seq<string>)
    ensures |s| == |edges|
  {
    seq(|edges|, i requires 0 <= i < |edges| => edges[i].source)
  }

  function TargetsOf(edges: seq<Edge>): (s: seq<string>)
    ensures |s| == |edges|
  {
    seq(|edges|, i requires 0 <= i < |edges| => edges[i].target)
  }

  function ValuesOf(edges: seq<Edge>): (s: seq<nat>)
    ensures |s| == |edges|
  {
    seq(|edges|, i requires 0 <= i < |edges| => edges[i].value)
  }

  function CountsOf(summary: seq<Entry>): (s: seq<nat>)
    ensures |s| == |summary|
  {
    seq(|summary|, i requires 0 <= i < |summary| => summary[i].count)
  }

  /** Appends one summary's edges to the three columns (one of the four loops of `create_sankey_df`). */
  method AppendEdges(sources: seq<string>, targets: seq<string>, values: seq<nat>,
                     b: Boundary, summary: seq<Entry>)
    returns (sources': seq<string>, targets': seq<string>, values': seq<nat>)
    ensures sources' == sources + SourcesOf(EdgesFrom(b, summary))
    ensures targets' == targets + TargetsOf(EdgesFrom(b, summary))
    ensures values' == values + ValuesOf(EdgesFrom(b, summary))
  {
    sources', targets', values' := sources, targets, values;
    var i := 0;
    while i < |summary|
      invariant 0 <= i <= |summary|
      invariant sources' == sources + SourcesOf(EdgesFrom(b, summary[..i]))
      invariant targets' == targets + TargetsOf(EdgesFrom(b, summary[..i]))
      invariant values' == values + ValuesOf(EdgesFrom(b, summary[..i]))
    {
      EdgesFromSnoc(b, summary, i);
      ConcatColumns(EdgesFrom(b, summary[..i]), [Edge(StageName(b), summary[i].key, summary[i].count)]);
      sources' := sources' + [StageName(b)];
      targets' := targets' + [summary[i].key];
      values' := values' + [summary[i].count];
      i := i + 1;
    }
    assert summary[..i] == summary;
  }

  lemma EdgesFromSnoc(b: Boundary, summary: seq<Entry>, i: nat)
    requires i < |summary|
    ensures EdgesFrom(b, summary[..i + 1]) == EdgesFrom(b, summary[..i]) + [Edge(StageName(b), summary[i].key, summary[i].count)]
  {
  }

  /**
   * `create_sankey_df`: the source, target and value columns of the edge list,
   * block by block in boundary order, with the summary counts copied unchanged.
   */
  method CreateSankeyDf(application: seq<Entry>, screening: seq<Entry>,
                        firstInterview: seq<Entry>, secondInterview: seq<Entry>)
    returns (sources: seq<string>, targets: seq<string>, values: seq<nat>)
    ensures var edges := SankeyEdges(application, screening, firstInterview, secondInterview);
      sources == SourcesOf(edges) && targets == TargetsOf(edges) && values == ValuesOf(edges)
    ensures |sources| == |targets| == |values| == |application| + |screening| + |firstInterview| + |secondInterview|
    ensures values == CountsOf(application) + CountsOf(screening) + CountsOf(firstInterview) + CountsOf(secondInterview)
  {
    sources, targets, values := [], [], [];
    sources, targets, values := AppendEdges(sources, targets, values, Application, application);
    sources, targets, values := AppendEdges(sources, targets, values, Screening, screening);
    sources, targets, values := AppendEdges(sources, targets, values, FirstInterview, firstInterview);
    sources, targets, values := AppendEdges(sources, targets, values, SecondInterview, secondInterview);
    SankeyColumns(application, screening, firstInterview, secondInterview);
  }

  /** The three columns of the edge list, block by block. */
  lemma SankeyColumns(application: seq<Entry>, screening: seq<Entry>,
                      firstInterview: seq<Entry>, secondInterview: seq<Entry>)
    ensures var e1, e2 := EdgesFrom(Application, application), EdgesFrom(Screening, screening);
      var e3, e4 := EdgesFrom(FirstInterview, firstInterview), EdgesFrom(SecondInterview, secondInterview);
      var edges := SankeyEdges(application, screening, firstInterview, secondInterview);
      && SourcesOf(edges) == [] + SourcesOf(e1) + SourcesOf(e2) + SourcesOf(e3) + SourcesOf(e4)
      && TargetsOf(edges) == [] + TargetsOf(e1) + TargetsOf(e2) + TargetsOf(e3) + TargetsOf(e4)
      && ValuesOf(edges) == [] + ValuesOf(e1) + ValuesOf(e2) + ValuesOf(e3) + ValuesOf(e4)
      && ValuesOf(edges) == CountsOf(application) + CountsOf(screening) + CountsOf(firstInterview) + CountsOf(secondInterview)
  {
    var e1, e2 := EdgesFrom(Application, application), EdgesFrom(Screening, screening);
    var e3, e4 := EdgesFrom(FirstInterview, firstInterview), EdgesFrom(SecondInterview, secondInterview);
    ConcatFour(e1, e2, e3, e4);
    assert [] + SourcesOf(e1) == SourcesOf(e1) && [] + TargetsOf(e1) == TargetsOf(e1) && [] + ValuesOf(e1) == ValuesOf(e1);
    ValuesAreCounts(Application, application);
    ValuesAreCounts(Screening, screening);
    ValuesAreCounts(FirstInterview, firstInterview);
    ValuesAreCounts(SecondInterview, secondInterview);
  }

  lemma ValuesAreCounts(b: Boundary, summary: seq<Entry>)
    ensures ValuesOf(EdgesFrom(b, summary)) == CountsOf(summary)
  {
  }

  lemma ConcatFour(e1: seq<Edge>, e2: seq<Edge>, e3: seq<Edge>, e4: seq<Edge>)
    ensures SourcesOf(e1 + e2 + e3 + e4) == SourcesOf(e1) + SourcesOf(e2) + SourcesOf(e3) + SourcesOf(e4)
    ensures TargetsOf(e1 + e2 + e3 + e4) == TargetsOf(e1) + TargetsOf(e2) + TargetsOf(e3) + TargetsOf(e4)
    ensures ValuesOf(e1 + e2 + e3 + e4) == ValuesOf(e1) + ValuesOf(e2) + ValuesOf(e3) + ValuesOf(e4)
  {
    ConcatColumns(e1, e2);
    ConcatColumns(e1 + e2, e3);
    ConcatColumns(e1 + e2 + e3, e4);
  }

  lemma ConcatColumns(a: seq<Edge>, b: seq<Edge>)
    ensures SourcesOf(a + b) == SourcesOf(a) + SourcesOf(b)
    ensures TargetsOf(a + b) == TargetsOf(a) + TargetsOf(b)
    ensures ValuesOf(a + b) == ValuesOf(a) + ValuesOf(b)
  {
  }

  /** The markup's edge lines are exactly the rendered edges of the edge list handed to the renderer. */
  lemma MarkupMatchesSankey(header: string, recs: seq<Record>)
    ensures FinalOutput(header, recs) == [header] + WhoAppliedSummary(WhoTotals(recs)) + RenderAll(FunnelEdges(recs))
  {
    var s1, s2 := Summary(recs, Application), Summary(recs, Screening);
    var s3, s4 := Summary(recs, FirstInterview), Summary(recs, SecondInterview);
    var e1, e2, e3, e4 := EdgesFrom(Application, s1), EdgesFrom(Screening, s2), EdgesFrom(FirstInterview, s3), EdgesFrom(SecondInterview, s4);
    var who := WhoAppliedSummary(WhoTotals(recs));
    assert FinalOutput(header, recs) == [header] + who + BoundaryLines(Application, s1) + BoundaryLines(Screening, s2)
                                        + BoundaryLines(FirstInterview, s3) + BoundaryLines(SecondInterview, s4);
    assert FunnelEdges(recs) == e1 + e2 + e3 + e4;
    BoundaryLinesRender(Application, s1);
    BoundaryLinesRender(Screening, s2);
    BoundaryLinesRender(FirstInterview, s3);
    BoundaryLinesRender(SecondInterview, s4);
    RenderFour(header, who, e1, e2, e3, e4);
  }

  lemma RenderFour(header: string, who: seq<string>, e1: seq<Edge>, e2: seq<Edge>, e3: seq<Edge>, e4: seq<Edge>)
    ensures [header] + who + RenderAll(e1) + RenderAll(e2) + RenderAll(e3) + RenderAll(e4)
         == [header] + who + RenderAll(e1 + e2 + e3 + e4)
  {
    RenderAllAppend(e1, e2);
    RenderAllAppend(e1 + e2, e3);
    RenderAllAppend(e1 + e2 + e3, e4);
  }

  lemma BoundaryLinesRender(b: Boundary, summary: seq<Entry>)
    ensures BoundaryLines(b, summary) == RenderAll(EdgesFrom(b, summary))
  {
  }

  lemma RenderAllAppend(a: seq<Edge>, b: seq<Edge>)
    ensures RenderAll(a + b) == RenderAll(a) + RenderAll(b)
  {
  }

  /**
   * The layout of the markup: the header first, then the who-applied lines,
   * then as many lines as the four summaries have entries together.
   */
  lemma FinalOutputLayout(header: string, recs: seq<Record>)
    ensures var out, who := FinalOutput(header, recs), WhoAppliedSummary(WhoTotals(recs));
      && |out| == 1 + |who| + |FunnelEdges(recs)|
      && out[0] == header
      && out[1..1 + |who|] == who
      && out[1 + |who|..] == RenderAll(FunnelEdges(recs))
    ensures |FunnelEdges(recs)| == |Summary(recs, Application)| + |Summary(recs, Screening)|
                                 + |Summary(recs, FirstInterview)| + |Summary(recs, SecondInterview)|
  {
    MarkupMatchesSankey(header, recs);
    var who := WhoAppliedSummary(WhoTotals(recs));
    var out := FinalOutput(header, recs);
    assert out == [header] + who + RenderAll(FunnelEdges(recs));
  }

  /** Every edge has weight at least 1. */
  ghost predicate PositiveEdges(edges: seq<Edge>)
  {
    forall i :: 0 <= i < |edges| ==> edges[i].value >= 1
  }

  /** Every edge of the funnel has weight at least 1: zero-weight edges never appear. */
  lemma FunnelEdgesPositive(recs: seq<Record>)
    ensures PositiveEdges(FunnelEdges(recs))
  {
    var s1, s2 := Summary(recs, Application), Summary(recs, Screening);
    var s3, s4 := Summary(recs, FirstInterview), Summary(recs, SecondInterview);
    var e1, e2, e3, e4 := EdgesFrom(Application, s1), EdgesFrom(Screening, s2), EdgesFrom(FirstInterview, s3), EdgesFrom(SecondInterview, s4);
    EdgesFromPositive(Application, s1);
    EdgesFromPositive(Screening, s2);
    EdgesFromPositive(FirstInterview, s3);
    EdgesFromPositive(SecondInterview, s4);
    PositiveEdgesAppend(e1, e2);
    PositiveEdgesAppend(e1 + e2, e3);
    PositiveEdgesAppend(e1 + e2 + e3, e4);
  }

  lemma PositiveEdgesAppend(a: seq<Edge>, b: seq<Edge>)
    requires PositiveEdges(a) && PositiveEdges(b)
    ensures PositiveEdges(a + b)
  {
    forall i | 0 <= i < |a + b| ensures (a + b)[i].value >= 1 {
      if i >= |a| {
        assert (a + b)[i] == b[i - |a|];
      }
    }
  }

  /** The weights of the edges leaving a stage add up to the rows that reached it (all rows for Application). */
  lemma BoundaryWeights(recs: seq<Record>, b: Boundary)
    ensures ValueTotal(EdgesFrom(b, Summary(recs, b))) == CountReached(recs, b) <= |recs|
    ensures b == Application ==> ValueTotal(EdgesFrom(b, Summary(recs, b))) == |recs|
  {
    EdgesFromTotal(b, Summary(recs, b));
  }

  lemma EdgesFromPositive(b: Boundary, summary: seq<Entry>)
    requires Positive(summary)
    ensures PositiveEdges(EdgesFrom(b, summary))
  {
  }

  function ValueTotal(edges: seq<Edge>): nat
    decreases |edges|
  {
    if edges == [] then 0 else edges[0].value + ValueTotal(edges[1..])
  }

  lemma {:induction false} EdgesFromTotal(b: Boundary, summary: seq<Entry>)
    ensures ValueTotal(EdgesFrom(b, summary)) == Total(summary)
    decreases |summary|
  {
    if summary != [] {
      EdgesFromTotal(b, summary[1..]);
      assert EdgesFrom(b, summary)[1..] == EdgesFrom(b, summary[1..]);
    }
  }

  lemma {:induction false} DropAllDiaryUpdates(recs: seq<Record>)
    requires forall i :: 0 <= i < |recs| ==> recs[i].outcome == DiaryUpdate
    ensures DropDiaryUpdates(recs) == []
    decreases |recs|
  {
    if recs != [] {
      DropAllDiaryUpdates(recs[1..]);
    }
  }

  /**
   * When every row is a diary update, the run stops on an all-missing
   * `Who Applied?` column if there is one; otherwise the markup is the
   * header alone and the edge list is empty.
   */
  lemma EmptyInputHeaderOnly(header: string, rows: seq<Row>)
    requires forall i :: 0 <= i < |rows| ==> NormaliseRow(rows[i]).outcome == DiaryUpdate
    ensures !OutcomeColumnEmpty(rows)
    ensures MarkupOf(header, rows) == if WhoColumnEmpty(rows) then Err(WhoAppliedHasNoText) else Ok([header])
    ensures Normalise(rows).Ok? ==> Normalise(rows).value == [] && FunnelEdges(Normalise(rows).value) == []
  {
    if |rows| > 0 {
      assert rows[0].outcome.Some?;
    }
    if !WhoColumnEmpty(rows) {
      DropAllDiaryUpdates(TitleColumns(rows).value);
      assert Normalise(rows) == Ok([]);
      assert WhoValues([]) == [] && WhoTotals([]) == [];
      assert forall b :: ExitColumn([], b) == [] && Summary([], b) == [];
      assert FinalOutput(header, []) == [header];
    }
  }
}
