/**
 * Aggregation of the exits into the per-boundary summaries: the summary of a
 * boundary counts the exit labels of the rows that reached the boundary's
 * stage, as a sorted frequency table.  Also the independent count of the
 * `Who Applied?` values.
 */
module Funnel {
  import opened Wrappers
  import opened Records
  import opened Transitions
  import opened ValueCounts

  /** The exit labels of the rows that reached boundary `b`'s stage, in row order. */
  function ExitColumn(recs: seq<Record>, b: Boundary): (col: seq<string>)
    ensures |col| == CountReached(recs, b)
    ensures forall i :: 0 <= i < |col| ==> exists r :: r in recs && Reached(r, b) && col[i] == Exit(r, b)
    decreases |recs|
  {
    if recs == [] then []
    else
      var init, last := recs[..|recs| - 1], recs[|recs| - 1];
      assert forall r :: r in init ==> r in recs;
      ExitColumn(init, b) + (if Reached(last, b) then [Exit(last, b)] else [])
  }

  /** How many rows reached boundary `b`'s stage. */
  function CountReached(recs: seq<Record>, b: Boundary): (n: nat)
    ensures n <= |recs|
    ensures b == Application ==> n == |recs|
    decreases |recs|
  {
    if recs == [] then 0
    else CountReached(recs[..|recs| - 1], b) + (if Reached(recs[|recs| - 1], b) then 1 else 0)
  }

  /**
   * The summary of boundary `b`: `value_counts().sort_index()` of its exit
   * column over the rows that reached it.  It lists every exit label of those
   * rows once, in ascending order, with the number of such rows as its count,
   * and its counts add up to the rows that reached the stage.
   */
  function Summary(recs: seq<Record>, b: Boundary): (t: seq<Entry>)
    ensures StrictlySorted(t) && Positive(t)
    ensures forall x :: CountOf(t, x) == CountExits(recs, b, x)
    ensures Total(t) == CountReached(recs, b) <= |recs|
    ensures b == Application ==> Total(t) == |recs|
  {
    ExitColumnCounts(recs, b);
    Tally(ExitColumn(recs, b))
  }

  /** Rows that have `x` as their exit at boundary `b` among those that reached it. */
  function CountExits(recs: seq<Record>, b: Boundary, x: string): nat
    decreases |recs|
  {
    if recs == [] then 0
    else
      var last := recs[|recs| - 1];
      CountExits(recs[..|recs| - 1], b, x) + (if Reached(last, b) && Exit(last, b) == x then 1 else 0)
  }

  lemma ExitColumnCounts(recs: seq<Record>, b: Boundary)
    ensures forall x :: Count(ExitColumn(recs, b), x) == CountExits(recs, b, x)
  {
    forall x ensures Count(ExitColumn(recs, b), x) == CountExits(recs, b, x) {
      ExitColumnCount(recs, b, x);
    }
  }

  lemma {:induction false} ExitColumnCount(recs: seq<Record>, b: Boundary, x: string)
    ensures Count(ExitColumn(recs, b), x) == CountExits(recs, b, x)
    decreases |recs|
  {
    if recs != [] {
      var init, last := recs[..|recs| - 1], recs[|recs| - 1];
      ExitColumnCount(init, b, x);
      var col := ExitColumn(recs, b);
      if Reached(last, b) {
        CountSnoc(ExitColumn(init, b), Exit(last, b), x);
      } else {
        assert col == ExitColumn(init, b);
      }
    }
  }

  /** A row that did not reach a boundary's stage leaves that boundary's summary unchanged. */
  lemma UnreachedNotCounted(recs: seq<Record>, r: Record, b: Boundary)
    requires !Reached(r, b)
    ensures Summary(recs + [r], b) == Summary(recs, b)
  {
    var grown := recs + [r];
    assert grown[..|grown| - 1] == recs && grown[|grown| - 1] == r;
    assert ExitColumn(grown, b) == ExitColumn(recs, b);
  }

  /** Each stage is reached only by rows that reached the stage before it. */
  ghost predicate Monotone(recs: seq<Record>)
  {
    forall i :: 0 <= i < |recs| ==>
      (recs[i].firstInterview ==> recs[i].screeningDate) && (recs[i].secondInterview ==> recs[i].firstInterview)
  }

  /** No outcome is spelled like a stage name. */
  ghost predicate OutcomesAreTerminal(recs: seq<Record>)
  {
    forall i :: 0 <= i < |recs| ==> recs[i].outcome !in {"Screening", "First Interview", "Second Interview"}
  }

  lemma {:induction false} InflowCount(recs: seq<Record>, b: Boundary)
    requires Next(b).Some? && Monotone(recs) && OutcomesAreTerminal(recs)
    ensures CountExits(recs, b, StageName(Next(b).value)) == CountReached(recs, Next(b).value)
    decreases |recs|
  {
    if recs != [] {
      var init := recs[..|recs| - 1];
      assert forall i :: 0 <= i < |init| ==> init[i] == recs[i];
      InflowCount(init, b);
    }
  }

  /**
   * Flow is conserved at every stage node: when progress is monotone and no
   * outcome is named like a stage, the count on the edge into a stage equals
   * the total of the edges out of it.
   */
  lemma FlowConserved(recs: seq<Record>, b: Boundary)
    requires Next(b).Some? && Monotone(recs) && OutcomesAreTerminal(recs)
    ensures CountOf(Summary(recs, b), StageName(Next(b).value)) == Total(Summary(recs, Next(b).value))
  {
    InflowCount(recs, b);
  }

  /** The `Who Applied?` column without its missing cells (`value_counts` skips them), in row order. */
  function WhoValues(recs: seq<Record>): (vals: seq<string>)
    ensures |vals| == Answered(recs) <= |recs|
    ensures forall i :: 0 <= i < |vals| ==> exists r :: r in recs && r.whoApplied == Some(vals[i])
    decreases |recs|
  {
    if recs == [] then []
    else
      var init, last := recs[..|recs| - 1], recs[|recs| - 1];
      assert forall r :: r in init ==> r in recs;
      WhoValues(init) + (if last.whoApplied.Some? then [last.whoApplied.value] else [])
  }

  /** How many rows have a `Who Applied?` value. */
  function Answered(recs: seq<Record>): nat
    decreases |recs|
  {
    if recs == [] then 0
    else Answered(recs[..|recs| - 1]) + (if recs[|recs| - 1].whoApplied.Some? then 1 else 0)
  }

  /** How many rows have `v` as their `Who Applied?` value. */
  function CountWho(recs: seq<Record>, v: string): nat
    decreases |recs|
  {
    if recs == [] then 0
    else CountWho(recs[..|recs| - 1], v) + (if recs[|recs| - 1].whoApplied == Some(v) then 1 else 0)
  }

  /** A value occurs among the counted `Who Applied?` values as often as rows have it. */
  lemma {:induction false} WhoValuesCount(recs: seq<Record>, v: string)
    ensures Count(WhoValues(recs), v) == CountWho(recs, v)
    decreases |recs|
  {
    if recs != [] {
      var init, last := recs[..|recs| - 1], recs[|recs| - 1];
      WhoValuesCount(init, v);
      var vals := WhoValues(recs);
      if last.whoApplied.Some? {
        assert vals[..|vals| - 1] == WhoValues(init);
      } else {
        assert vals == WhoValues(init);
      }
    }
  }

  lemma WhoValuesCounts(recs: seq<Record>)
    ensures forall v :: Count(WhoValues(recs), v) == CountWho(recs, v)
  {
    forall v ensures Count(WhoValues(recs), v) == CountWho(recs, v) {
      WhoValuesCount(recs, v);
    }
  }

  /**
   * The `Who Applied?` totals: one entry per distinct value, with the number
   * of rows that have it, adding up to the rows that have a value.
   */
  function WhoTotals(recs: seq<Record>): (t: seq<Entry>)
    ensures IsCountTable(t, WhoValues(recs))
    ensures forall v :: CountOf(t, v) == CountWho(recs, v)
    ensures Total(t) == Answered(recs) <= |recs|
  {
    WhoValuesCounts(recs);
    Tally(WhoValues(recs))
  }
}
