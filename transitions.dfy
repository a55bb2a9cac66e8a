/**
 * The four stage boundaries of the funnel and the exit label of a row at each:
 * the next stage's name when the row has that stage's marker, otherwise the
 * row's outcome.  The last boundary always exits to the outcome.
 */
module Transitions {
  import opened Wrappers
  import opened Records

  datatype Boundary = Application | Screening | FirstInterview | SecondInterview

  /** The node name a boundary's edges start from in the diagram. */
  function StageName(b: Boundary): string
  {
    match b
    case Application => "Application"
    case Screening => "Screening"
    case FirstInterview => "First Interview"
    case SecondInterview => "Second Interview"
  }

  /** Whether the row reached the stage a boundary leaves (every row reached Application). */
  predicate Reached(r: Record, b: Boundary)
  {
    match b
    case Application => true
    case Screening => r.screeningDate
    case FirstInterview => r.firstInterview
    case SecondInterview => r.secondInterview
  }

  /** The stage after a boundary's stage, if the funnel has one. */
  function Next(b: Boundary): Option<Boundary>
  {
    match b
    case Application => Some(Screening)
    case Screening => Some(FirstInterview)
    case FirstInterview => Some(SecondInterview)
    case SecondInterview => None
  }

  /**
   * Application Exit (`determine_transition`): the
   * row moves on to Screening when it has a screening date, and otherwise
   * leaves the funnel to its outcome.
   */
  function DetermineTransition(r: Record): (e: string)
    ensures e == "Screening" || e == r.outcome
    ensures r.screeningDate ==> e == "Screening"
    ensures r.outcome != "Screening" ==> (e == "Screening" <==> r.screeningDate)
  {
    if r.screeningDate then "Screening" else r.outcome
  }

  /**
   * Screening Exit: on to First Interview when the
   * row has one, otherwise to its outcome.
   */
  function ScreeningExit(r: Record): (e: string)
    ensures e == "First Interview" || e == r.outcome
    ensures r.firstInterview ==> e == "First Interview"
    ensures r.outcome != "First Interview" ==> (e == "First Interview" <==> r.firstInterview)
  {
    if r.firstInterview then "First Interview" else r.outcome
  }

  /**
   * First Interview Exit: on to Second Interview when
   * the row has one, otherwise to its outcome.
   */
  function FirstInterviewExit(r: Record): (e: string)
    ensures e == "Second Interview" || e == r.outcome
    ensures r.secondInterview ==> e == "Second Interview"
    ensures r.outcome != "Second Interview" ==> (e == "Second Interview" <==> r.secondInterview)
  {
    if r.secondInterview then "Second Interview" else r.outcome
  }

  /** Second Interview Exit: the last stage, so every row leaves to its outcome. */
  function SecondInterviewExit(r: Record): (e: string)
    ensures e == r.outcome
  {
    r.outcome
  }

  /** The exit column of boundary `b`. */
  function Exit(r: Record, b: Boundary): string
  {
    match b
    case Application => DetermineTransition(r)
    case Screening => ScreeningExit(r)
    case FirstInterview => FirstInterviewExit(r)
    case SecondInterview => SecondInterviewExit(r)
  }

  /**
   * The four hand-written exits follow one rule: a row leaves a boundary to the
   * next stage exactly when it carries that stage's marker, and to its outcome
   * otherwise; after the last stage it always leaves to its outcome.
   */
  lemma ExitRule(r: Record, b: Boundary)
    ensures Next(b).Some? && Reached(r, Next(b).value) ==> Exit(r, b) == StageName(Next(b).value)
    ensures Next(b).None? || !Reached(r, Next(b).value) ==> Exit(r, b) == r.outcome
    ensures Next(b).None? <==> b == SecondInterview
  {
  }

  /** An exit label is either a later stage's name or the row's outcome. */
  lemma ExitIsStageOrOutcome(r: Record, b: Boundary)
    ensures Exit(r, b) == r.outcome || Exit(r, b) in {"Screening", "First Interview", "Second Interview"}
  {
  }
}
