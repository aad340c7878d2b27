/**
 * Match outcome vocabulary shared by every collector: the status labels
 * written to `matches.status` and the `winner` derived from two scores.
 */
module Outcome {
  import opened Wrappers

  const FINISHED: string := "FINISHED"
  const SCHEDULED: string := "SCHEDULED"
  const LIVE: string := "LIVE"
  const POSTPONED: string := "POSTPONED"
  const AWAITING_SCORES: string := "AWAITING_SCORES"
  const UNKNOWN_SCORE: string := "UNKNOWN_SCORE"

  /** The value of the `winner` column. */
  datatype Winner = HomeTeam | AwayTeam | Draw
  {
    function Label(): string
    {
      match this
      case HomeTeam => "HOME_TEAM"
      case AwayTeam => "AWAY_TEAM"
      case Draw => "DRAW"
    }

    /** The same result seen with the sides exchanged. */
    function Mirror(): Winner
    {
      match this
      case HomeTeam => AwayTeam
      case AwayTeam => HomeTeam
      case Draw => Draw
    }
  }

  /** home > away gives HOME_TEAM, away > home gives AWAY_TEAM, equal gives DRAW. */
  function DeriveWinner(home: int, away: int): (w: Winner)
    ensures w == HomeTeam <==> home > away
    ensures w == AwayTeam <==> away > home
    ensures w == Draw <==> home == away
  {
    if home > away then HomeTeam else if away > home then AwayTeam else Draw
  }

  /** Exchanging the two scores mirrors the winner. */
  lemma WinnerMirror(home: int, away: int)
    ensures DeriveWinner(away, home) == DeriveWinner(home, away).Mirror()
  {
  }

  /** The status, scores and winner a match row is stored with. */
  datatype Scoreline = Scoreline(status: string, homeScore: Option<int>, awayScore: Option<int>, winner: Option<string>)
  {
    /**
     * FINISHED exactly when both scores are known, and then the winner is
     * the one the scores give; otherwise no score and no winner.
     */
    predicate Consistent()
    {
      && (status == FINISHED <==> homeScore.Some? && awayScore.Some?)
      && (winner.Some? <==> status == FINISHED)
      && (status == FINISHED ==> winner == Some(DeriveWinner(homeScore.value, awayScore.value).Label()))
      && (status != FINISHED ==> homeScore.None? && awayScore.None?)
    }
  }

  /** A played match: FINISHED with both scores and the winner they give. */
  function Played(home: int, away: int): (s: Scoreline)
    ensures s.Consistent() && s.status == FINISHED && s.homeScore == Some(home) && s.awayScore == Some(away)
  {
    Scoreline(FINISHED, Some(home), Some(away), Some(DeriveWinner(home, away).Label()))
  }

  /** A match without a result: no scores and no winner. */
  function Unplayed(status: string): (s: Scoreline)
    requires status != FINISHED
    ensures s.Consistent() && s.status == status
  {
    Scoreline(status, None, None, None)
  }
}
