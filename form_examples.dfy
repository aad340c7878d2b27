/**
 * Worked cases of the form calculation: the history of the unit-test
 * fixture, and a three-game history.
 */
module FormExamples {
  import opened Wrappers
  import opened FormFeatures


  /** A timestamp on day d of January 2023, counting from a fixed origin. */
  function Jan(d: int): Option<int>
  {
    Some(d * DAY)
  }

  function Row(d: int, home: int, away: int, hs: Option<int>, as_: Option<int>): HistRow
  {
    HistRow(Some(home), Some(away), Jan(d), hs, as_)
  }

  /** The thirteen rows of the unit-test history. */
  const TestRows := [
    Row(1, 1, 2, Some(2), Some(1)), Row(5, 2, 1, Some(1), Some(2)), Row(10, 1, 2, Some(0), Some(0)),
    Row(15, 2, 1, Some(3), Some(1)), Row(20, 1, 2, Some(2), Some(1)), Row(2, 2, 1, Some(1), Some(2)),
    Row(6, 1, 3, Some(1), Some(1)), Row(11, 2, 1, Some(2), Some(0)), Row(16, 1, 3, Some(0), Some(1)),
    Row(21, 2, 1, Some(0), Some(0)), Row(25, 1, 2, Some(5), Some(0)), Row(3, 3, 1, Some(1), Some(1)),
    Row(4, 1, 4, None, Some(1))]

  /** The rows of TestRows that involve team 1 and precede 2023-01-22. */
  const TestEligible := [
    Row(1, 1, 2, Some(2), Some(1)), Row(5, 2, 1, Some(1), Some(2)), Row(10, 1, 2, Some(0), Some(0)),
    Row(15, 2, 1, Some(3), Some(1)), Row(20, 1, 2, Some(2), Some(1)), Row(2, 2, 1, Some(1), Some(2)),
    Row(6, 1, 3, Some(1), Some(1)), Row(11, 2, 1, Some(2), Some(0)), Row(16, 1, 3, Some(0), Some(1)),
    Row(21, 2, 1, Some(0), Some(0)), Row(3, 3, 1, Some(1), Some(1)), Row(4, 1, 4, None, Some(1))]

  /** Team 1's five most recent games before the cutoff, in history order. */
  const TestRecent := [
    Row(15, 2, 1, Some(3), Some(1)), Row(20, 1, 2, Some(2), Some(1)), Row(11, 2, 1, Some(2), Some(0)),
    Row(16, 1, 3, Some(0), Some(1)), Row(21, 2, 1, Some(0), Some(0))]

  lemma TestFilter()
    ensures Filter(TestRows, 1, 22 * DAY, None) == TestEligible
  {
  }

  lemma TestThreshold()
    ensures AtLeast(TestEligible, 11 * DAY) == TestRecent
  {
  }

  lemma TestTally()
    ensures TallyOf(TestRecent, 1) == Tally(1, 1, 3, 0)
  {
  }

  /** Team 1's window before 2023-01-22 holds exactly TestRecent, in some order. */
  lemma TestWindow()
    ensures multiset(Window(TestRows, 1, 22 * DAY, 5, None)) == multiset(TestRecent)
    ensures TallyOf(Window(TestRows, 1, 22 * DAY, 5, None), 1) == Tally(1, 1, 3, 0)
    ensures |Window(TestRows, 1, 22 * DAY, 5, None)| == 5
  {
    TestFilter();
    TestThreshold();
    TestTally();
    WindowByThreshold(TestRows, 1, 22 * DAY, 5, None, 11 * DAY);
    var w := Window(TestRows, 1, 22 * DAY, 5, None);
    assert |w| == |multiset(w)| == 5;
  }

  /** Team 1, cutoff 2023-01-22, five games: 1 win, 1 draw, 3 losses, 5 played. */
  lemma TestFixtureOverallForm()
    ensures TeamForm(Some(1), Cutoff(22 * DAY), History(true, TestRows), 5, None) == Form("form_overall", 1, 1, 3, 5)
  {
    TestWindow();
  }

  /** Team 10: beat 11 2-1 at home, won 2-1 away at 11, drew 0-0 with 12. */
  const ThreeRows := [Row(1, 10, 11, Some(2), Some(1)), Row(2, 11, 10, Some(1), Some(2)), Row(3, 10, 12, Some(0), Some(0))]

  lemma ThreeRowsFacts()
    ensures Filter(ThreeRows, 10, 4 * DAY, None) == ThreeRows
    ensures AtLeast(ThreeRows, 0) == ThreeRows
    ensures TallyOf(ThreeRows, 10) == Tally(2, 1, 0, 0)
  {
  }

  /** Team 10's overall form on day 4 over five games: two wins, one draw, three played. */
  lemma ThreeGameForm()
    ensures TeamForm(Some(10), Cutoff(4 * DAY), History(true, ThreeRows), 5, None) == Form("form_overall", 2, 1, 0, 3)
  {
    ThreeRowsFacts();
    WindowByThreshold(ThreeRows, 10, 4 * DAY, 5, None, 0);
    assert |multiset(Window(ThreeRows, 10, 4 * DAY, 5, None))| == 3;
  }

  /** Two games of team 1 on day 5, a home win and a home loss. */
  const TieWin := Row(5, 1, 2, Some(1), Some(0))
  const TieLoss := Row(5, 1, 2, Some(0), Some(1))

  /** Two eligible rows of team 1 on one day keep their order through the filter, the sort and a one-game window. */
  lemma TiedPair(x: HistRow, y: HistRow)
    requires x.utcDate == y.utcDate == Jan(5) && x.homeTeamId == y.homeTeamId == Some(1)
    ensures Window([x, y], 1, 10 * DAY, 1, None) == [x]
  {
    assert [x, y][1..] == [y] && [y][1..] == [];
    assert FilterFrom([x, y], 2, 1, 10 * DAY, None) == [];
    assert FilterFrom([x, y], 1, 1, 10 * DAY, None) == [y];
    assert Filter([x, y], 1, 10 * DAY, None) == [x, y];
    assert SortByDateDesc([y]) == Insert(y, []) == [y];
    assert SortByDateDesc([x, y]) == Insert(x, [y]) == [x, y];
  }

  /**
   * A tie straddling the edge of a one-game window: which of the two games
   * the window keeps, and so the form, follows the order of the history.
   */
  lemma TieAtWindowEdge()
    ensures TeamForm(Some(1), Cutoff(10 * DAY), History(true, [TieWin, TieLoss]), 1, None) == Form("form_overall", 1, 0, 0, 1)
    ensures TeamForm(Some(1), Cutoff(10 * DAY), History(true, [TieLoss, TieWin]), 1, None) == Form("form_overall", 0, 0, 1, 1)
  {
    TiedPair(TieWin, TieLoss);
    TiedPair(TieLoss, TieWin);
    assert [TieWin][1..] == [] && [TieLoss][1..] == [];
    assert TallyOf([TieWin], 1) == TallyFrom(Tally(1, 0, 0, 0), [], 1) == Tally(1, 0, 0, 0);
    assert TallyOf([TieLoss], 1) == TallyFrom(Tally(0, 0, 1, 0), [], 1) == Tally(0, 0, 1, 0);
  }
}
