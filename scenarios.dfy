/** Short games played on a fresh component, showing how clicks and the delayed
    advance interact. */
module Scenarios {
  import opened Trainer

  /** Finding the target on the first try scores it; the advance then opens the second
      question with the score still one. */
  method FirstTryScores() returns (score: nat, total: nat, attempted: bool)
    ensures score == 1 && total == 2 && !attempted
  {
    var t := new ChessTrainer([]);
    t.StartGame(WhiteSide, true, 0);
    var target := t.currentCoordinate;
    t.CheckSquare(target, 1500);
    t.Advance(2000);
    score, total, attempted := t.score, t.totalQuestions, t.currentCoordinateAttempted;
  }

  /** Two clicks on the target before the delayed advance fires both score: the
      question is not closed until the advance, so the score overtakes the number of
      questions. */
  method DoubleClickBeforeAdvance() returns (score: nat, total: nat)
    ensures score == 2 && total == 1
  {
    var t := new ChessTrainer([]);
    t.StartGame(WhiteSide, true, 0);
    var target := t.currentCoordinate;
    t.CheckSquare(target, 900);
    t.CheckSquare(target, 1000);
    score, total := t.score, t.totalQuestions;
  }
}
