/**
 * Example runs of a session, proved from the contracts of `Game` alone:
 * each drives a fresh session through clicks and timer steps and asserts
 * what results.
 */
module Scenarios {
  import opened Utils
  import opened Game

  /** Filtering 2 and 3 out of the full pool. */
  lemma FullPoolWithout23()
    ensures Without([1, 2, 3, 4, 5, 6, 7, 8, 9], [2, 3]) == [1, 4, 5, 6, 7, 8, 9]
  {
    assert [1][..0] == [];
    assert Without([1], [2, 3]) == [1];
    assert [1, 2][..1] == [1];
    assert Without([1, 2], [2, 3]) == [1];
    assert [1, 2, 3][..2] == [1, 2];
    assert Without([1, 2, 3], [2, 3]) == [1];
    assert [1, 2, 3, 4][..3] == [1, 2, 3];
    assert Without([1, 2, 3, 4], [2, 3]) == [1, 4];
    assert [1, 2, 3, 4, 5][..4] == [1, 2, 3, 4];
    assert Without([1, 2, 3, 4, 5], [2, 3]) == [1, 4, 5];
    assert [1, 2, 3, 4, 5, 6][..5] == [1, 2, 3, 4, 5];
    assert Without([1, 2, 3, 4, 5, 6], [2, 3]) == [1, 4, 5, 6];
    assert [1, 2, 3, 4, 5, 6, 7][..6] == [1, 2, 3, 4, 5, 6];
    assert Without([1, 2, 3, 4, 5, 6, 7], [2, 3]) == [1, 4, 5, 6, 7];
    assert [1, 2, 3, 4, 5, 6, 7, 8][..7] == [1, 2, 3, 4, 5, 6, 7];
    assert Without([1, 2, 3, 4, 5, 6, 7, 8], [2, 3]) == [1, 4, 5, 6, 7, 8];
    assert [1, 2, 3, 4, 5, 6, 7, 8, 9][..8] == [1, 2, 3, 4, 5, 6, 7, 8];
    assert Without([1, 2, 3, 4, 5, 6, 7, 8, 9], [2, 3]) == [1, 4, 5, 6, 7, 8, 9];
  }

  /** Target 5 on the full pool: selecting 2 and clicking it again restores the selection. */
  method DeselectScenario() {
    var g := new Session(0.45);
    assert Range(1, 9) == [1, 2, 3, 4, 5, 6, 7, 8, 9];
    assert g.stars == Some(5);
    g.OnNumberClick(2, 0.5);
    assert Sum([2]) == 2;
    assert g.candidateNums == [2];
    g.OnNumberClick(2, 0.5);
    assert g.candidateNums == [] && g.availableNums == [1, 2, 3, 4, 5, 6, 7, 8, 9];
  }

  /**
   * Target 5 on the full pool: 2 and 3 complete a match that removes both
   * from the pool, clears the selection and draws a new target.
   */
  method MatchScenario(u: real)
    requires 0.0 <= u < 1.0
  {
    var g := new Session(0.45);
    assert Range(1, 9) == [1, 2, 3, 4, 5, 6, 7, 8, 9];
    assert g.stars == Some(5);
    assert Sum([2]) == 2;
    g.OnNumberClick(2, u);
    assert g.candidateNums == [2];
    SecondDigitMatches(g, u);
    assert g.availableNums == [1, 4, 5, 6, 7, 8, 9] && g.candidateNums == [];
  }

  /** With 2 selected and target 5, clicking 3 completes the match. */
  method SecondDigitMatches(g: Session, u: real)
    requires g.Valid() && 0.0 <= u < 1.0
    requires g.availableNums == [1, 2, 3, 4, 5, 6, 7, 8, 9] && g.candidateNums == [2]
    requires g.stars == Some(5) && g.secondsLeft > 0
    modifies g
    ensures g.Valid()
    ensures g.availableNums == [1, 4, 5, 6, 7, 8, 9] && g.candidateNums == []
    ensures g.stars.Some? && 1 <= g.stars.value <= 9
  {
    assert g.NumberStatus(3) == Available && g.GameStatus() == Active;
    assert Sum([2, 3]) == 5 by {
      assert [2, 3][..1] == [2];
    }
    assert Toggled([2], 3, Available) == [2, 3];
    g.OnNumberClick(3, u);
    FullPoolWithout23();
  }


  /** Target 3: selecting 5 and then 4 overshoots, and both show as wrong. */
  method OvershootScenario(u: real)
    requires 0.0 <= u < 1.0
  {
    var g := new Session(0.25);
    assert Range(1, 9) == [1, 2, 3, 4, 5, 6, 7, 8, 9];
    assert g.stars == Some(3);
    assert g.NumberStatus(5) == Available && g.GameStatus() == Active;
    assert Toggled([], 5, Available) == [5];
    assert Sum([5]) == 5;
    g.OnNumberClick(5, u);
    assert g.candidateNums == [5];
    SecondDigitOvershoots(g, u);
  }

  /** With 5 selected and target 3, clicking 4 keeps both selected, shown as wrong. */
  method SecondDigitOvershoots(g: Session, u: real)
    requires g.Valid() && 0.0 <= u < 1.0
    requires g.availableNums == [1, 2, 3, 4, 5, 6, 7, 8, 9] && g.candidateNums == [5]
    requires g.stars == Some(3) && g.secondsLeft > 0
    modifies g
    ensures g.Valid()
    ensures g.candidateNums == [5, 4] && g.stars == Some(3)
    ensures g.NumberStatus(5) == Wrong && g.NumberStatus(4) == Wrong
  {
    assert Sum([5, 4]) == 9 by {
      assert [5, 4][..1] == [5];
    }
    assert g.NumberStatus(4) == Available && g.GameStatus() == Active;
    assert Toggled([5], 4, Available) == [5, 4];
    g.OnNumberClick(4, u);
    assert g.CandidatesAreWrong();
  }

  /** Ten timer steps on a fresh session lose the game; clicks and ticks then change nothing. */
  method LossScenario() {
    var g := new Session(0.0);
    while g.secondsLeft > 0
      invariant g.Valid() && g.availableNums == Range(1, 9) && g.candidateNums == []
      decreases g.secondsLeft
    {
      g.Tick();
    }
    assert g.secondsLeft == 0 && g.GameStatus() == Lost;
    g.OnNumberClick(1, 0.5);
    assert g.candidateNums == [] && g.availableNums == Range(1, 9);
    g.Tick();
    assert g.secondsLeft == 0;
  }
}
