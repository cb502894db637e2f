/** The trainer component: one game at a time, driven by clicks on the board, a
    one-second interval and a half-second delayed advance, plus the high-score table. */
module Trainer {
  import opened Records
  import opened Board
  import Scoring
  import Leaderboard

  /** The side chosen on the start buttons; "random" is resolved when the game starts. */
  datatype Perspective = WhiteSide | BlackSide | RandomSide

  /** The orientation a start button asks for; `heads` is the coin flipped for "random". */
  function Resolve(perspective: Perspective, heads: bool): (o: Orientation)
    ensures perspective == WhiteSide ==> o == White
    ensures perspective == BlackSide ==> o == Black
    ensures perspective == RandomSide ==> (o == White <==> heads)
  {
    match perspective
    case WhiteSide => White
    case BlackSide => Black
    case RandomSide => if heads then White else Black
  }

  /** The round counts the settings offer. */
  const AvailableRounds: seq<nat> := [5, 10, 15, 20]

  class ChessTrainer {
    var gameStarted: bool
    var gameEnded: bool
    var boardOrientation: Orientation
    var currentCoordinate: string
    var score: nat
    var totalQuestions: nat
    var timer: nat
    /** The interval stored in timerInterval has not been cleared. */
    var timerRunning: bool
    var responseTimes: seq<int>
    /** Clock reading (milliseconds) when the current target was drawn; 0 before the first. */
    var lastQuestionTime: int
    var history: seq<HistoryEntry>
    var saveStatus: bool
    var resultSaved: bool
    var currentCoordinateAttempted: bool
    var showCoordinates: bool
    var maxQuestions: nat
    var savedResults: seq<SavedResult>

    /** Callbacks scheduled with a timer that have not fired yet: delayed advances to the
        next target, and the reset of the save indicator. */
    ghost var pendingAdvances: nat
    ghost var pendingStatusResets: nat
    /** Intervals that still tick once a second, including any that were overwritten in
        timerInterval without being cleared. */
    ghost var liveIntervals: nat

    /** What holds in every reachable state. */
    ghost predicate Valid()
      reads this
    {
      TimerAccounted() && TargetWellFormed() && HistoryAligned() && TableRanked() && RoundsChosen()
    }

    /** There is at least one round: the setting starts at 10 and only ever takes one of
        the offered counts. */
    ghost predicate RoundsChosen()
      reads this`maxQuestions
    {
      maxQuestions >= 1
    }

    ghost predicate TimerAccounted()
      reads this`timerRunning, this`liveIntervals
    {
      timerRunning ==> liveIntervals > 0
    }

    ghost predicate TargetWellFormed()
      reads this`currentCoordinate
    {
      currentCoordinate == "" || IsSquare(currentCoordinate)
    }

    /** One response time and one history record per click, recorded together. */
    ghost predicate HistoryAligned()
      reads this`history, this`responseTimes
    {
      && |history| == |responseTimes|
      && (forall i :: 0 <= i < |history| ==> history[i].time == responseTimes[i])
      && (forall i :: 0 <= i < |history| ==>
            history[i].correct == (history[i].answered == history[i].coordinate))
    }

    ghost predicate TableRanked()
      reads this`savedResults
    {
      Leaderboard.AllRanked(savedResults)
    }

    /** The score bookkeeping: no more points than questions, no more questions than
        rounds, and while a question is open it has not yet been scored. This is kept only
        as long as no click reaches the board while an advance is pending (see CheckSquare
        and DoubleClickBeforeAdvance). */
    ghost predicate Consistent()
      reads this`maxQuestions, this`score, this`totalQuestions, this`pendingAdvances,
        this`gameEnded, this`gameStarted
    {
      && 1 <= maxQuestions
      && score <= totalQuestions <= maxQuestions
      && pendingAdvances <= 1
      && (pendingAdvances == 1 ==> !gameEnded && totalQuestions < maxQuestions)
      && (gameStarted && !gameEnded && pendingAdvances == 0 ==> score < totalQuestions)
    }

    /** The high-score table is in the order and size a save leaves it in. */
    ghost predicate TableInOrder()
      reads this`savedResults
    {
      Leaderboard.Sorted(savedResults) && |savedResults| <= Leaderboard.MaxEntries
    }

    /** The component as the page creates it, with the table read back from storage
        (empty when nothing was stored). */
    constructor (stored: seq<SavedResult>)
      requires Leaderboard.AllRanked(stored)
      ensures Valid() && Consistent()
      ensures !gameStarted && !gameEnded && boardOrientation == White && currentCoordinate == ""
      ensures score == 0 && totalQuestions == 0 && timer == 0 && !timerRunning
      ensures responseTimes == [] && history == [] && !saveStatus && !resultSaved
      ensures !currentCoordinateAttempted && !showCoordinates && maxQuestions == 10
      ensures savedResults == stored
      ensures pendingAdvances == 0 && pendingStatusResets == 0 && liveIntervals == 0
    {
      gameStarted, gameEnded, boardOrientation, currentCoordinate := false, false, White, "";
      score, totalQuestions, timer, timerRunning := 0, 0, 0, false;
      responseTimes, lastQuestionTime, history := [], 0, [];
      saveStatus, resultSaved, currentCoordinateAttempted := false, false, false;
      showCoordinates, maxQuestions, savedResults := false, 10, stored;
      pendingAdvances, pendingStatusResets, liveIntervals := 0, 0, 0;
    }

    /** The rounds setting writes the field directly. */
    method ChooseRounds(n: nat)
      requires Valid() && n in AvailableRounds
      modifies this`maxQuestions
      ensures Valid() && maxQuestions == n
      ensures (old(Consistent()) && totalQuestions <= n
        && (pendingAdvances == 1 ==> totalQuestions < n)) ==> Consistent()
    {
      maxQuestions := n;
    }

    method EndGame()
      requires TimerAccounted()
      modifies this`gameEnded, this`timerRunning, this`liveIntervals
      ensures TimerAccounted() && gameEnded && !timerRunning
      ensures liveIntervals == if old(timerRunning) then old(liveIntervals) - 1 else old(liveIntervals)
      ensures old(Consistent()) && pendingAdvances == 0 ==> Consistent()
    {
      if timerRunning {
        liveIntervals := liveIntervals - 1;
      }
      timerRunning := false;
      gameEnded := true;
    }

    /** What drawing the next target does: count one more question; past the last
        round end the game and keep the old target, otherwise pick a square other than the
        previous target and open it for scoring. */
    twostate predicate NewQuestion(now: int)
      reads this
    {
      && totalQuestions == old(totalQuestions) + 1
      && if totalQuestions > maxQuestions then
           && gameEnded && !timerRunning
           && liveIntervals == (if old(timerRunning) then old(liveIntervals) - 1 else old(liveIntervals))
           && currentCoordinate == old(currentCoordinate)
           && currentCoordinateAttempted == old(currentCoordinateAttempted)
           && lastQuestionTime == old(lastQuestionTime)
         else
           && gameEnded == old(gameEnded) && timerRunning == old(timerRunning)
           && liveIntervals == old(liveIntervals)
           && IsSquare(currentCoordinate) && currentCoordinate != old(currentCoordinate)
           && !currentCoordinateAttempted && lastQuestionTime == now
    }

    /** Draws the next target. The random retry loop is a choice among the 63 squares
        other than the previous target. */
    method GenerateNewCoordinate(now: int)
      requires TimerAccounted()
      modifies this`totalQuestions, this`currentCoordinate, this`currentCoordinateAttempted,
        this`lastQuestionTime, this`gameEnded, this`timerRunning, this`liveIntervals
      ensures TimerAccounted() && NewQuestion(now)
      ensures old(TargetWellFormed()) ==> TargetWellFormed()
    {
      var previousCoordinate := currentCoordinate;
      totalQuestions := totalQuestions + 1;
      if totalQuestions > maxQuestions {
        EndGame();
        return;
      }
      SquareNameInjective(0, 0, 1, 0);
      assert SquareName(0, 0) != previousCoordinate || SquareName(1, 0) != previousCoordinate;
      var fileIndex: nat, rankIndex: nat :|
        fileIndex < 8 && rankIndex < 8 && SquareName(fileIndex, rankIndex) != previousCoordinate;
      currentCoordinate := SquareName(fileIndex, rankIndex);
      currentCoordinateAttempted := false;
      lastQuestionTime := now;
    }

    /** Starts a game: resolve the side (`heads` is the coin flipped when the side is
        random), clear the counters, start the one-second interval and draw the first
        target. */
    method StartGame(perspective: Perspective, heads: bool, now: int)
      requires Valid()
      modifies this`boardOrientation, this`gameStarted, this`gameEnded, this`score,
        this`totalQuestions, this`timer, this`responseTimes, this`history, this`resultSaved,
        this`currentCoordinateAttempted, this`timerRunning, this`liveIntervals,
        this`currentCoordinate, this`lastQuestionTime
      ensures Valid()
      ensures perspective == WhiteSide ==> boardOrientation == White
      ensures perspective == BlackSide ==> boardOrientation == Black
      ensures boardOrientation == Resolve(perspective, heads)
      ensures gameStarted && score == 0 && totalQuestions == 1 && timer == 0
      ensures responseTimes == [] && history == [] && !resultSaved
      ensures !gameEnded && timerRunning && liveIntervals == old(liveIntervals) + 1
      ensures IsSquare(currentCoordinate) && currentCoordinate != old(currentCoordinate)
      ensures !currentCoordinateAttempted && lastQuestionTime == now
      ensures old(Consistent()) && (pendingAdvances == 0 || maxQuestions >= 2) ==> Consistent()
    {
      PrepareGame(perspective, heads);
      GenerateNewCoordinate(now);
    }

    /** Everything StartGame does before the first draw: resolve the side, clear the
        counters and the record of the last game, and start a new one-second interval
        (the handle of any interval still running is overwritten, not cleared). */
    method PrepareGame(perspective: Perspective, heads: bool)
      requires TimerAccounted()
      modifies this`boardOrientation, this`gameStarted, this`gameEnded, this`score,
        this`totalQuestions, this`timer, this`responseTimes, this`history, this`resultSaved,
        this`currentCoordinateAttempted, this`timerRunning, this`liveIntervals
      ensures TimerAccounted() && HistoryAligned()
      ensures boardOrientation == Resolve(perspective, heads)
      ensures gameStarted && !gameEnded && score == 0 && totalQuestions == 0 && timer == 0
      ensures responseTimes == [] && history == [] && !resultSaved && !currentCoordinateAttempted
      ensures timerRunning && liveIntervals == old(liveIntervals) + 1
    {
      boardOrientation := Resolve(perspective, heads);
      gameStarted, gameEnded := true, false;
      score, totalQuestions, timer := 0, 0, 0;
      responseTimes, history := [], [];
      resultSaved, currentCoordinateAttempted := false, false;
      timerRunning, liveIntervals := true, liveIntervals + 1;
    }

    /** One firing of a live one-second interval. */
    method Tick()
      requires liveIntervals > 0
      modifies this`timer
      ensures timer == old(timer) + 1
    {
      timer := timer + 1;
    }

    /** A click on the square `coordinate` at clock reading `now`. */
    method CheckSquare(coordinate: string, now: int)
      requires Valid()
      modifies this`responseTimes, this`history, this`score, this`currentCoordinateAttempted,
        this`pendingAdvances, this`gameEnded, this`timerRunning, this`liveIntervals
      ensures Valid()
      ensures old(gameEnded) ==> unchanged(this)
      ensures !old(gameEnded) ==>
        && responseTimes == old(responseTimes) + [now - lastQuestionTime]
        && history == old(history) + [HistoryEntry(currentCoordinate, coordinate,
             coordinate == currentCoordinate, now - lastQuestionTime)]
      ensures !old(gameEnded) && coordinate == currentCoordinate ==>
        && score == old(score) + (if old(currentCoordinateAttempted) then 0 else 1)
        && currentCoordinateAttempted == old(currentCoordinateAttempted)
        && if totalQuestions >= maxQuestions then
             && gameEnded && !timerRunning && pendingAdvances == old(pendingAdvances)
             && liveIntervals == (if old(timerRunning) then old(liveIntervals) - 1 else old(liveIntervals))
           else
             && !gameEnded && pendingAdvances == old(pendingAdvances) + 1
             && timerRunning == old(timerRunning) && liveIntervals == old(liveIntervals)
      ensures !old(gameEnded) && coordinate != currentCoordinate ==>
        && currentCoordinateAttempted && score == old(score)
        && gameEnded == old(gameEnded) && pendingAdvances == old(pendingAdvances)
        && timerRunning == old(timerRunning) && liveIntervals == old(liveIntervals)
      ensures old(Consistent() && gameStarted && pendingAdvances == 0) ==> Consistent()
    {
      if !gameEnded {
        var responseTime := now - lastQuestionTime;
        responseTimes := responseTimes + [responseTime];
        var isCorrect := coordinate == currentCoordinate;
        history := history + [HistoryEntry(currentCoordinate, coordinate, isCorrect, responseTime)];
        if isCorrect {
          if !currentCoordinateAttempted {
            score := score + 1;
          }
          if totalQuestions >= maxQuestions {
            EndGame();
          } else {
            pendingAdvances := pendingAdvances + 1;
          }
        } else {
          currentCoordinateAttempted := true;
        }
      }
    }

    /** The delayed advance firing: it draws the next target whatever has happened to
        the game since it was scheduled. */
    method Advance(now: int)
      requires Valid() && pendingAdvances > 0
      modifies this`pendingAdvances, this`totalQuestions, this`currentCoordinate,
        this`currentCoordinateAttempted, this`lastQuestionTime, this`gameEnded,
        this`timerRunning, this`liveIntervals
      ensures Valid() && NewQuestion(now)
      ensures pendingAdvances == old(pendingAdvances) - 1
      ensures old(Consistent()) ==> Consistent()
    {
      pendingAdvances := pendingAdvances - 1;
      GenerateNewCoordinate(now);
    }

    /** Back to the start screen; neither the interval nor a pending advance is cancelled. */
    method ResetGame()
      modifies this`gameStarted, this`gameEnded, this`saveStatus
      ensures !gameStarted && !gameEnded && !saveStatus
      ensures old(Consistent()) ==> Consistent()
    {
      gameStarted := false;
      gameEnded := false;
      saveStatus := false;
    }

    /** The result of the game as it is stored in the table. */
    function CurrentResult(date: string): (r: SavedResult)
      reads this`boardOrientation, this`score, this`totalQuestions, this`maxQuestions,
        this`responseTimes, this`history
    {
      SavedResult(date, Label(boardOrientation), score, totalQuestions, maxQuestions,
        Scoring.Accuracy(score, totalQuestions), Scoring.AverageHundredths(responseTimes), history)
    }

    /** Saves the game into the table once: push, sort best first, keep ten. */
    method SaveResults(date: string)
      requires Valid() && totalQuestions > 0
      modifies this`saveStatus, this`savedResults, this`resultSaved, this`pendingStatusResets
      ensures Valid() && resultSaved
      ensures old(resultSaved) ==> unchanged(this)
      ensures !old(resultSaved) ==>
        && saveStatus && pendingStatusResets == old(pendingStatusResets) + 1
        && savedResults == Leaderboard.Save(old(savedResults), CurrentResult(date))
        && TableInOrder()
    {
      if !resultSaved {
        var result := CurrentResult(date);
        Leaderboard.SaveKeepsOrder(savedResults, result);
        var table := savedResults + [result];
        table := Leaderboard.SortRanked(table);
        if |table| > Leaderboard.MaxEntries {
          table := table[..Leaderboard.MaxEntries];
        }
        assert table == Leaderboard.Save(savedResults, result);
        saveStatus, savedResults, resultSaved := true, table, true;
        pendingStatusResets := pendingStatusResets + 1;
      }
    }

    /** The save indicator's timeout firing. */
    method SaveIndicatorTimeout()
      requires pendingStatusResets > 0
      modifies this`saveStatus, this`pendingStatusResets
      ensures !saveStatus && pendingStatusResets == old(pendingStatusResets) - 1
    {
      saveStatus := false;
      pendingStatusResets := pendingStatusResets - 1;
    }

    /** Removes entry `index` from the table if the user confirms. */
    method RemoveRecord(index: int, confirmed: bool)
      requires Valid()
      modifies this`savedResults
      ensures Valid()
      ensures savedResults == if confirmed then Leaderboard.RemoveAt(old(savedResults), index)
                              else old(savedResults)
      ensures old(TableInOrder()) ==> TableInOrder()
    {
      Leaderboard.RemoveKeepsOrder(savedResults, index);
      if confirmed {
        savedResults := Leaderboard.RemoveAt(savedResults, index);
      }
    }
  }
}
