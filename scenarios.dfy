/** Worked examples of the whole pipeline on small tables. */
module Scenarios {
  import opened Wrappers
  import opened TitleCase
  import opened Records
  import opened Transitions
  import opened ValueCounts
  import opened Funnel
  import opened Markup

  /** A hired candidate who had a screening and a first interview but no second one. */
  lemma HiredAfterFirstInterview()
    ensures Normalise([Row(Some("hired"), Some("me"), true, true, false)]) == Ok([Record("Hired", Some("Me"), true, true, false)])
    ensures FunnelEdges(Normalise([Row(Some("hired"), Some("me"), true, true, false)]).value)
         == [Edge("Application", "Screening", 1), Edge("Screening", "First Interview", 1), Edge("First Interview", "Hired", 1)]
  {
    var rows := [Row(Some("hired"), Some("me"), true, true, false)];
    HiredRows(rows);
    HiredExits([Record("Hired", Some("Me"), true, true, false)]);
    HiredEdges([Record("Hired", Some("Me"), true, true, false)]);
  }

  lemma HiredEdges(recs: seq<Record>)
    requires ExitColumn(recs, Application) == ["Screening"]
    requires ExitColumn(recs, Screening) == ["First Interview"]
    requires ExitColumn(recs, FirstInterview) == ["Hired"]
    requires ExitColumn(recs, SecondInterview) == []
    ensures FunnelEdges(recs)
         == [Edge("Application", "Screening", 1), Edge("Screening", "First Interview", 1), Edge("First Interview", "Hired", 1)]
  {
    TallySingle("Screening");
    TallySingle("First Interview");
    TallySingle("Hired");
    assert Tally([]) == [];
    SummaryFrom(recs, Application, ["Screening"]);
    SummaryFrom(recs, Screening, ["First Interview"]);
    SummaryFrom(recs, FirstInterview, ["Hired"]);
    SummaryFrom(recs, SecondInterview, []);
    assert EdgesFrom(SecondInterview, []) == [];
  }

  lemma HiredExits(recs: seq<Record>)
    requires recs == [Record("Hired", Some("Me"), true, true, false)]
    ensures ExitColumn(recs, Application) == ["Screening"]
    ensures ExitColumn(recs, Screening) == ["First Interview"]
    ensures ExitColumn(recs, FirstInterview) == ["Hired"]
    ensures ExitColumn(recs, SecondInterview) == []
  {
  }

  lemma TallySingle(x: string)
    ensures Tally([x]) == [Entry(x, 1)]
  {
    assert [x][..0] == [];
  }

  lemma HiredRows(rows: seq<Row>)
    requires rows == [Row(Some("hired"), Some("me"), true, true, false)]
    ensures Normalise(rows) == Ok([Record("Hired", Some("Me"), true, true, false)])
  {
    assert Title("hired") == "Hired" && Title("me") == "Me";
    assert rows[0].outcome.Some? && rows[0].whoApplied.Some?;
    assert NormaliseRow(rows[0]) == Record("Hired", Some("Me"), true, true, false);
    assert !TitleRaises(rows);
    assert TitleColumns(rows).value == [Record("Hired", Some("Me"), true, true, false)];
    assert "Hired" != DiaryUpdate by { assert "Hired"[0] != DiaryUpdate[0]; }
    assert DropDiaryUpdates([Record("Hired", Some("Me"), true, true, false)]) == [Record("Hired", Some("Me"), true, true, false)];
  }

  /** A rejected candidate who was never screened exits at the first boundary and nowhere else. */
  lemma RejectedBeforeScreening()
    ensures Normalise([Row(Some("rejected"), Some("them"), false, false, false)]) == Ok([Record("Rejected", Some("Them"), false, false, false)])
    ensures FunnelEdges(Normalise([Row(Some("rejected"), Some("them"), false, false, false)]).value)
         == [Edge("Application", "Rejected", 1)]
  {
    RejectedRows([Row(Some("rejected"), Some("them"), false, false, false)]);
    RejectedExits([Record("Rejected", Some("Them"), false, false, false)]);
    RejectedEdges([Record("Rejected", Some("Them"), false, false, false)]);
  }

  lemma RejectedRows(rows: seq<Row>)
    requires rows == [Row(Some("rejected"), Some("them"), false, false, false)]
    ensures Normalise(rows) == Ok([Record("Rejected", Some("Them"), false, false, false)])
  {
    assert Title("rejected") == "Rejected" && Title("them") == "Them";
    assert rows[0].outcome.Some? && rows[0].whoApplied.Some?;
    assert NormaliseRow(rows[0]) == Record("Rejected", Some("Them"), false, false, false);
    assert !TitleRaises(rows);
    assert TitleColumns(rows).value == [Record("Rejected", Some("Them"), false, false, false)];
    assert "Rejected" != DiaryUpdate by { assert "Rejected"[0] != DiaryUpdate[0]; }
    assert DropDiaryUpdates([Record("Rejected", Some("Them"), false, false, false)])
        == [Record("Rejected", Some("Them"), false, false, false)];
  }

  lemma RejectedEdges(recs: seq<Record>)
    requires ExitColumn(recs, Application) == ["Rejected"]
    requires ExitColumn(recs, Screening) == [] && ExitColumn(recs, FirstInterview) == [] && ExitColumn(recs, SecondInterview) == []
    ensures FunnelEdges(recs) == [Edge("Application", "Rejected", 1)]
  {
    TallySingle("Rejected");
    assert Tally([]) == [];
    SummaryFrom(recs, Application, ["Rejected"]);
    SummaryFrom(recs, Screening, []);
    SummaryFrom(recs, FirstInterview, []);
    SummaryFrom(recs, SecondInterview, []);
    assert EdgesFrom(Screening, []) == [] && EdgesFrom(FirstInterview, []) == [] && EdgesFrom(SecondInterview, []) == [];
  }

  lemma RejectedExits(recs: seq<Record>)
    requires recs == [Record("Rejected", Some("Them"), false, false, false)]
    ensures ExitColumn(recs, Application) == ["Rejected"]
    ensures ExitColumn(recs, Screening) == [] && ExitColumn(recs, FirstInterview) == [] && ExitColumn(recs, SecondInterview) == []
  {
  }

  /** One application made by the candidate and one made by an employer. */
  lemma BothDirections()
    ensures Normalise([Row(Some("ghosted"), Some("me"), false, false, false),
                       Row(Some("rejected"), Some("them"), false, false, false)]).Ok?
    ensures WhoAppliedSummary(WhoTotals(Normalise([Row(Some("ghosted"), Some("me"), false, false, false),
                                                   Row(Some("rejected"), Some("them"), false, false, false)]).value))
         == [MeLead + "1" + ApplicationTail, ThemLead + "1" + ApplicationTail]
  {
    var rows := [Row(Some("ghosted"), Some("me"), false, false, false), Row(Some("rejected"), Some("them"), false, false, false)];
    var recs := [Record("Ghosted", Some("Me"), false, false, false), Record("Rejected", Some("Them"), false, false, false)];
    BothDirectionsRows(rows, recs);
    WhoMeThem(recs);
    LinesMeThem();
  }

  lemma WhoMeThem(recs: seq<Record>)
    requires recs == [Record("Ghosted", Some("Me"), false, false, false), Record("Rejected", Some("Them"), false, false, false)]
    ensures WhoTotals(recs) == [Entry("Me", 1), Entry("Them", 1)]
  {
    assert WhoValues(recs) == ["Me", "Them"];
    TallyMeThem();
  }

  lemma LinesMeThem()
    ensures WhoAppliedSummary([Entry("Me", 1), Entry("Them", 1)])
         == [MeLead + "1" + ApplicationTail, ThemLead + "1" + ApplicationTail]
  {
    OneLine("Me");
    assert "Them" != "Me" by { assert "Them"[0] != "Me"[0]; }
    OneLine("Them");
  }

  lemma OneLine(key: string)
    ensures WhoLine(Entry(key, 1)) == (if key == "Me" then MeLead else ThemLead) + "1" + ApplicationTail
  {
    assert Decimal.NatToString(1) == "1";
  }

  lemma BothDirectionsRows(rows: seq<Row>, recs: seq<Record>)
    requires rows == [Row(Some("ghosted"), Some("me"), false, false, false), Row(Some("rejected"), Some("them"), false, false, false)]
    requires recs == [Record("Ghosted", Some("Me"), false, false, false), Record("Rejected", Some("Them"), false, false, false)]
    ensures Normalise(rows) == Ok(recs)
  {
    assert Title("me") == "Me" && Title("them") == "Them";
    assert Title("ghosted") == "Ghosted" && Title("rejected") == "Rejected";
    assert rows[0].outcome.Some? && rows[0].whoApplied.Some?;
    assert NormaliseRow(rows[0]) == recs[0] && NormaliseRow(rows[1]) == recs[1];
    assert !TitleRaises(rows);
    assert TitleColumns(rows).value == recs;
    DropDiaryUpdatesNoop(recs);
  }

  lemma TallyMeThem()
    ensures Tally(["Me", "Them"]) == [Entry("Me", 1), Entry("Them", 1)]
  {
    var vals := ["Me", "Them"];
    var t := [Entry("Me", 1), Entry("Them", 1)];
    assert StringOrder.Less("Me", "Them");
    forall x ensures CountOf(t, x) == Count(vals, x) {
      CountMeThem(x);
    }
    TallyUnique(t, vals);
  }

  lemma CountMeThem(x: string)
    ensures CountOf([Entry("Me", 1), Entry("Them", 1)], x) == Count(["Me", "Them"], x)
  {
    var vals := ["Me", "Them"];
    var t := [Entry("Me", 1), Entry("Them", 1)];
    assert "Me" != "Them" by { assert "Me"[0] != "Them"[0]; }
    assert vals[..1] == ["Me"] && vals[..1][..0] == [];
    assert t[1..] == [Entry("Them", 1)] && t[1..][1..] == [];
    var m, n := if x == "Me" then 1 else 0, if x == "Them" then 1 else 0;
    assert CountOf(t, x) == m + n;
    assert Count(vals[..1], x) == m;
  }

  /**
   * A table whose `Who Applied?` cells are all missing stops the run, and so
   * does one whose `Outcome` cells are all missing; the outcome column is
   * title-cased first, so its error is the one reported when both are empty.
   */
  lemma EmptyColumnsStop()
    ensures Normalise([Row(Some("hired"), None, true, true, false)]) == Err(WhoAppliedHasNoText)
    ensures Normalise([Row(None, Some("me"), false, false, false)]) == Err(OutcomeHasNoText)
    ensures Normalise([Row(None, None, false, false, false)]) == Err(OutcomeHasNoText)
  {
    var hired := [Row(Some("hired"), None, true, true, false)];
    assert WhoColumnEmpty(hired);
    assert hired[0].outcome.Some?;
    assert !OutcomeColumnEmpty(hired);
    assert OutcomeColumnEmpty([Row(None, Some("me"), false, false, false)]);
    assert OutcomeColumnEmpty([Row(None, None, false, false, false)]);
  }

  /** Exits at one boundary are tallied in ascending label order, whatever the row order. */
  lemma TallyOrder()
    ensures Summary([Record("Rejected", None, false, false, false), Record("Ghosted", None, false, false, false),
                     Record("Rejected", None, false, false, false)], Application)
         == [Entry("Ghosted", 1), Entry("Rejected", 2)]
  {
    var recs := [Record("Rejected", None, false, false, false), Record("Ghosted", None, false, false, false),
                 Record("Rejected", None, false, false, false)];
    var col := ["Rejected", "Ghosted", "Rejected"];
    assert ExitColumn(recs, Application) == col;
    SummaryFrom(recs, Application, col);
    TallyRejectedGhosted();
  }

  lemma SummaryFrom(recs: seq<Record>, b: Boundary, col: seq<string>)
    requires ExitColumn(recs, b) == col
    ensures Summary(recs, b) == Tally(col)
  {
  }

  lemma TallyRejectedGhosted()
    ensures Tally(["Rejected", "Ghosted", "Rejected"]) == [Entry("Ghosted", 1), Entry("Rejected", 2)]
  {
    var t := [Entry("Ghosted", 1), Entry("Rejected", 2)];
    assert StringOrder.Less("Ghosted", "Rejected");
    forall x ensures CountOf(t, x) == Count(["Rejected", "Ghosted", "Rejected"], x) {
      CountRejectedGhosted(x);
    }
    TallyUnique(t, ["Rejected", "Ghosted", "Rejected"]);
  }

  lemma CountRejectedGhosted(x: string)
    ensures CountOf([Entry("Ghosted", 1), Entry("Rejected", 2)], x) == Count(["Rejected", "Ghosted", "Rejected"], x)
  {
    var col := ["Rejected", "Ghosted", "Rejected"];
    var t := [Entry("Ghosted", 1), Entry("Rejected", 2)];
    assert "Rejected" != "Ghosted" by { assert "Rejected"[0] != "Ghosted"[0]; }
    assert col[..2] == ["Rejected", "Ghosted"] && col[..2][..1] == ["Rejected"] && col[..2][..1][..0] == [];
    assert t[1..] == [Entry("Rejected", 2)] && t[1..][1..] == [];
    var r, g := if x == "Rejected" then 1 else 0, if x == "Ghosted" then 1 else 0;
    assert CountOf(t, x) == g + 2 * r;
    assert Count(col[..2][..1], x) == r;
    assert Count(col[..2], x) == r + g;
  }
}
