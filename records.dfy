/**
 * Application rows and their normalisation: `Outcome` is title-cased and a
 * missing outcome becomes "Pending", `Who Applied?` is title-cased, and the
 * bookkeeping rows whose outcome is "Diary Update" are dropped.
 */
module Records {
  import opened Wrappers
  import opened TitleCase

  /** A row as loaded from the table; a `false` marker is an empty date cell. */
  datatype Row = Row(
    outcome: Option<string>,
    whoApplied: Option<string>,
    screeningDate: bool,
    firstInterview: bool,
    secondInterview: bool)

  /** A row after normalisation: its outcome is always present. */
  datatype Record = Record(
    outcome: string,
    whoApplied: Option<string>,
    screeningDate: bool,
    firstInterview: bool,
    secondInterview: bool)

  const Pending: string := "Pending"
  const DiaryUpdate: string := "Diary Update"

  /** `Series.str.title()` on one cell: a missing cell stays missing. */
  function TitleCell(c: Option<string>): Option<string>
  {
    match c
    case None => None
    case Some(s) => Some(Title(s))
  }

  /** The two column updates applied to one row. */
  function NormaliseRow(r: Row): (rec: Record)
    ensures r.outcome.None? ==> rec.outcome == Pending
    ensures r.outcome.Some? ==> rec.outcome == Title(r.outcome.value)
    ensures rec.whoApplied.Some? <==> r.whoApplied.Some?
    ensures r.whoApplied.Some? ==> rec.whoApplied.value == Title(r.whoApplied.value)
    ensures rec.screeningDate == r.screeningDate && rec.firstInterview == r.firstInterview
    ensures rec.secondInterview == r.secondInterview
  {
    Record(TitleCell(r.outcome).GetOr(Pending), TitleCell(r.whoApplied),
           r.screeningDate, r.firstInterview, r.secondInterview)
  }

  /** Why the column updates raise: the column named holds no text at all. */
  datatype ColumnError = OutcomeHasNoText | WhoAppliedHasNoText

  /**
   * Every cell of the `Outcome` column is missing.  A non-empty column of empty
   * cells is loaded as a numeric column, and title casing it raises.
   */
  predicate OutcomeColumnEmpty(rows: seq<Row>)
  {
    |rows| > 0 && forall i :: 0 <= i < |rows| ==> rows[i].outcome.None?
  }

  /** Every cell of the `Who Applied?` column is missing, which raises in the same way. */
  predicate WhoColumnEmpty(rows: seq<Row>)
  {
    |rows| > 0 && forall i :: 0 <= i < |rows| ==> rows[i].whoApplied.None?
  }

  /** The column updates raise on `rows`. */
  predicate TitleRaises(rows: seq<Row>)
  {
    OutcomeColumnEmpty(rows) || WhoColumnEmpty(rows)
  }

  /**
   * Title-cases `Outcome` (filling missing ones with "Pending") and then
   * `Who Applied?`.  The `Outcome` update runs first, so its error wins.
   */
  function TitleColumns(rows: seq<Row>): (r: Result<seq<Record>, ColumnError>)
    ensures r.Err? <==> TitleRaises(rows)
    ensures r == Err(OutcomeHasNoText) <==> OutcomeColumnEmpty(rows)
    ensures r.Ok? ==> |r.value| == |rows| && forall i :: 0 <= i < |rows| ==> r.value[i] == NormaliseRow(rows[i])
  {
    if OutcomeColumnEmpty(rows) then Err(OutcomeHasNoText)
    else if WhoColumnEmpty(rows) then Err(WhoAppliedHasNoText)
    else Ok(seq(|rows|, i requires 0 <= i < |rows| => NormaliseRow(rows[i])))
  }

  /**
   * `recs` without the "Diary Update" rows.
   */
  function DropDiaryUpdates(recs: seq<Record>): (kept: seq<Record>)
    ensures |kept| <= |recs|
    ensures forall i :: 0 <= i < |kept| ==> kept[i].outcome != DiaryUpdate
    ensures forall r :: r in kept <==> r in recs && r.outcome != DiaryUpdate
    decreases |recs|
  {
    if recs == [] then []
    else (if recs[0].outcome == DiaryUpdate then [] else [recs[0]]) + DropDiaryUpdates(recs[1..])
  }

  /** Every kept row is kept as many times as it occurs; "Diary Update" rows not at all. */
  lemma {:induction false} DropDiaryUpdatesCounts(recs: seq<Record>)
    ensures forall r :: multiset(DropDiaryUpdates(recs))[r] == if r.outcome == DiaryUpdate then 0 else multiset(recs)[r]
    decreases |recs|
  {
    if recs != [] {
      DropDiaryUpdatesCounts(recs[1..]);
      assert recs == [recs[0]] + recs[1..];
      assert multiset(recs) == multiset([recs[0]]) + multiset(recs[1..]);
    }
  }

  /** `a` is `b` with some elements left out, the rest kept in order. */
  predicate IsSubsequence(a: seq<Record>, b: seq<Record>)
    decreases |b|
  {
    if b == [] then a == []
    else (a != [] && a[0] == b[0] && IsSubsequence(a[1..], b[1..])) || IsSubsequence(a, b[1..])
  }

  /** Dropping the "Diary Update" rows keeps the other rows in their original order. */
  lemma {:induction false} DropDiaryUpdatesKeepsOrder(recs: seq<Record>)
    ensures IsSubsequence(DropDiaryUpdates(recs), recs)
    decreases |recs|
  {
    if recs != [] {
      DropDiaryUpdatesKeepsOrder(recs[1..]);
      var rest := DropDiaryUpdates(recs[1..]);
      if recs[0].outcome != DiaryUpdate {
        assert DropDiaryUpdates(recs) == [recs[0]] + rest;
        assert ([recs[0]] + rest)[1..] == rest;
      } else {
        assert DropDiaryUpdates(recs) == rest;
      }
    }
  }

  /** The filter works row by row: filtering a concatenation concatenates the filtered parts. */
  lemma {:induction false} DropDiaryUpdatesAppend(a: seq<Record>, b: seq<Record>)
    ensures DropDiaryUpdates(a + b) == DropDiaryUpdates(a) + DropDiaryUpdates(b)
    decreases |a|
  {
    if a != [] {
      assert (a + b)[0] == a[0] && (a + b)[1..] == a[1..] + b;
      DropDiaryUpdatesAppend(a[1..], b);
      assert DropDiaryUpdates(a + b)
          == (if a[0].outcome == DiaryUpdate then [] else [a[0]]) + DropDiaryUpdates(a[1..] + b);
    } else {
      assert a + b == b;
    }
  }

  /** A row whose outcome reads "diary update" in any letter case is dropped by normalisation. */
  lemma DiaryRowDropped(r: Row)
    requires r.outcome.Some? && Lowered(r.outcome.value) == Lowered(DiaryUpdate)
    ensures DropDiaryUpdates([NormaliseRow(r)]) == []
  {
    TitleIgnoresCase(r.outcome.value, DiaryUpdate);
    assert Title(DiaryUpdate) == DiaryUpdate;
  }

  /**
   * The normalisation steps in the order the pipeline runs them.  When the
   * column updates succeed, no row has outcome "Diary Update" and exactly the
   * other rows remain, each as many times as it occurs, in their original order.
   */
  function Normalise(rows: seq<Row>): (r: Result<seq<Record>, ColumnError>)
    ensures r.Err? <==> TitleRaises(rows)
    ensures r.Err? ==> r == TitleColumns(rows)
    ensures r.Ok? ==> forall i :: 0 <= i < |r.value| ==> r.value[i].outcome != DiaryUpdate
    ensures r.Ok? ==> IsSubsequence(r.value, TitleColumns(rows).value)
    ensures r.Ok? ==> forall i :: 0 <= i < |rows| && NormaliseRow(rows[i]).outcome != DiaryUpdate ==> NormaliseRow(rows[i]) in r.value
    ensures r.Ok? ==> forall x :: multiset(r.value)[x] == if x.outcome == DiaryUpdate then 0 else multiset(TitleColumns(rows).value)[x]
  {
    match TitleColumns(rows)
    case Err(e) => Err(e)
    case Ok(recs) =>
      DropDiaryUpdatesKeepsOrder(recs);
      DropDiaryUpdatesCounts(recs);
      Ok(DropDiaryUpdates(recs))
  }

  /** Two identical rows that pass the filter both remain. */
  lemma DuplicateRowsKept(a: Row)
    requires NormaliseRow(a).outcome != DiaryUpdate && !TitleRaises([a, a])
    ensures Normalise([a, a]) == Ok([NormaliseRow(a), NormaliseRow(a)])
  {
    var recs := TitleColumns([a, a]).value;
    assert recs == [NormaliseRow(a), NormaliseRow(a)];
    assert recs[1..] == [NormaliseRow(a)] && recs[1..][1..] == [];
    assert DropDiaryUpdates(recs[1..][1..]) == [];
    assert DropDiaryUpdates(recs[1..]) == [NormaliseRow(a)];
    assert DropDiaryUpdates(recs) == recs;
  }

  /** A normalised row read back as a raw row. */
  function Raw(r: Record): Row
  {
    Row(Some(r.outcome), r.whoApplied, r.screeningDate, r.firstInterview, r.secondInterview)
  }

  function RawRows(recs: seq<Record>): (rows: seq<Row>)
    ensures |rows| == |recs|
  {
    seq(|recs|, i requires 0 <= i < |recs| => Raw(recs[i]))
  }

  ghost predicate TitleCased(r: Record)
  {
    && Title(r.outcome) == r.outcome
    && (r.whoApplied.Some? ==> Title(r.whoApplied.value) == r.whoApplied.value)
  }

  lemma NormaliseRowTitleCased(r: Row)
    ensures TitleCased(NormaliseRow(r))
  {
    if r.outcome.Some? {
      TitleIdempotent(r.outcome.value);
    } else {
      assert Title(Pending) == Pending;
    }
    if r.whoApplied.Some? {
      TitleIdempotent(r.whoApplied.value);
    }
  }

  /**
   * Reading normalised rows back and normalising them again changes nothing,
   * unless the reloaded table raises; and it raises exactly when rows remain
   * and none of them has a `Who Applied?` value.
   */
  lemma NormaliseIdempotent(rows: seq<Row>)
    ensures Normalise(rows).Ok? ==> var recs := Normalise(rows).value;
      TitleRaises(RawRows(recs)) <==> |recs| > 0 && forall i :: 0 <= i < |recs| ==> recs[i].whoApplied.None?
    ensures Normalise(rows).Ok? ==> var recs := Normalise(rows).value;
      !TitleRaises(RawRows(recs)) ==> Normalise(RawRows(recs)) == Ok(recs)
  {
    if Normalise(rows).Err? {
      return;
    }
    var recs := Normalise(rows).value;
    RawRowsRaise(recs);
    if !TitleRaises(RawRows(recs)) {
      var all := TitleColumns(rows).value;
      forall i | 0 <= i < |recs| ensures TitleCased(recs[i]) {
        assert recs[i] in all;
        var j :| 0 <= j < |rows| && all[j] == recs[i];
        NormaliseRowTitleCased(rows[j]);
      }
      RetitleNoop(recs);
    }
  }

  /** Reloaded normalised rows always have outcomes, so only `Who Applied?` can raise. */
  lemma RawRowsRaise(recs: seq<Record>)
    ensures !OutcomeColumnEmpty(RawRows(recs))
    ensures TitleRaises(RawRows(recs)) <==> |recs| > 0 && forall i :: 0 <= i < |recs| ==> recs[i].whoApplied.None?
  {
    var raw := RawRows(recs);
    assert forall i :: 0 <= i < |recs| ==> raw[i] == Raw(recs[i]);
    if |recs| > 0 {
      assert raw[0].outcome.Some?;
    }
  }

  lemma RetitleNoop(recs: seq<Record>)
    requires forall i :: 0 <= i < |recs| ==> TitleCased(recs[i]) && recs[i].outcome != DiaryUpdate
    requires !TitleRaises(RawRows(recs))
    ensures Normalise(RawRows(recs)) == Ok(recs)
  {
    assert TitleColumns(RawRows(recs)).value == recs;
    DropDiaryUpdatesNoop(recs);
  }

  /**
   * Normalisation is not idempotent on every table: here the only row with a
   * `Who Applied?` value is a "Diary Update" row, so the normalised table has
   * none, and reading it back and normalising it again raises.
   */
  lemma RenormaliseCanRaise()
    ensures var rows := [Row(Some("Diary Update"), Some("Me"), false, false, false),
                         Row(Some("Hired"), None, false, false, false)];
      && Normalise(rows) == Ok([Record("Hired", None, false, false, false)])
      && Normalise(RawRows(Normalise(rows).value)) == Err(WhoAppliedHasNoText)
  {
    var rows := [Row(Some("Diary Update"), Some("Me"), false, false, false),
                 Row(Some("Hired"), None, false, false, false)];
    DiaryOnlyAnswered(rows);
    RawRowsRaise([Record("Hired", None, false, false, false)]);
  }

  lemma DiaryOnlyAnswered(rows: seq<Row>)
    requires rows == [Row(Some("Diary Update"), Some("Me"), false, false, false),
                      Row(Some("Hired"), None, false, false, false)]
    ensures Normalise(rows) == Ok([Record("Hired", None, false, false, false)])
  {
    TitledWords();
    assert rows[0].outcome.Some? && rows[0].whoApplied.Some?;
    assert !TitleRaises(rows);
    var all := TitleColumns(rows).value;
    assert all[0] == Record(DiaryUpdate, Some("Me"), false, false, false);
    assert all[1] == Record("Hired", None, false, false, false);
    assert all == [all[0], all[1]];
    assert DropDiaryUpdates(all) == [Record("Hired", None, false, false, false)];
  }

  lemma TitledWords()
    ensures Title("Diary Update") == DiaryUpdate && Title("Me") == "Me" && Title("Hired") == "Hired"
  {
  }

  lemma {:induction false} DropDiaryUpdatesNoop(recs: seq<Record>)
    requires forall i :: 0 <= i < |recs| ==> recs[i].outcome != DiaryUpdate
    ensures DropDiaryUpdates(recs) == recs
    decreases |recs|
  {
    if recs != [] {
      DropDiaryUpdatesNoop(recs[1..]);
    }
  }
}
