# Chess coordinate trainer — verified model

The trainer shows a chessboard and names a square ("e4"). The player clicks squares until
they hit it, then the next square is named. Only a first-try hit scores. A game lasts a
chosen number of rounds (5, 10, 15 or 20). A one-second interval drives the on-screen
clock. At the end, the game can be saved to a high-score table of at most ten entries:
- best score/total ratio first;
- on equal ratios, the lower average response time first.

This project models the page's single component, `chessTrainer()` in `js/app.js`, in Dafny:

- `records.dfy` (`Records`) holds the stored values: the board orientation, one answered
  click, one saved game.
- `board.dfy` (`Board`) covers square names and the order and colour in which the board
  draws its 64 squares. The drawing loop is a method with nested loops, proved to draw
  square `i` as `CellAt(i)`.
- `scoring.dfy` (`Scoring`) covers the accuracy percentage and the average response time.
  Both are computed exactly, as integer quotients rounded half up, with the bounds that
  define the rounding stated and used (the code's floating-point arithmetic can differ at
  an exact half; see "Left out").
- `clock.dfy` (`Clock`) covers the "MM:SS" display built with `toString` and
  `padStart(2, '0')`. It is proved to read back to the seconds it shows.
- `leaderboard.dfy` (`Leaderboard`) covers the table:
  - the comparator, as an exact order on ratios by cross-multiplication;
  - `Array.prototype.sort`, as a stable insertion sort;
  - a save, as push, sort and keep ten;
  - a removal, as `splice(index, 1)` with its negative-index rule.
- `trainer.dfy` (`Trainer`) holds the component as a class whose methods update its
  fields the way the handlers do:
  - start, draw a target, click, end, reset, save, remove;
  - the two timer callbacks as explicit methods, `Tick` for the interval and `Advance`
    for the delayed draw.
- `scenarios.dfy` (`Scenarios`) plays short games on a fresh component.

Clock readings (`Date.now()`), the coin for a random side and the user's answer to the
removal confirmation are parameters. The random square is a nondeterministic choice
among the squares other than the previous target. The timers are ghost counters:
- `pendingAdvances` counts delayed advances scheduled and not yet fired;
- `liveIntervals` counts intervals never cleared;
- `pendingStatusResets` counts save-indicator timeouts.

`Advance` and `Tick` may only run when such a callback exists.

One would expect `score <= totalQuestions <= rounds` at all times; the code does not
guarantee it, and the model follows the code. In the code a correct
click schedules the next draw 500 ms later but leaves the question open. A second click on
the same target before the draw scores again (`Scenarios.DoubleClickBeforeAdvance`: score
2 after 1 question). The model therefore proves the bound (`ChessTrainer.Consistent`) only
for clicks that arrive while no advance is pending. It is a conditional postcondition of
every operation that writes the fields it reads (StartGame, ChooseRounds, EndGame,
CheckSquare, Advance, ResetGame); Tick, SaveResults, SaveIndicatorTimeout and RemoveRecord
cannot change it, since their `modifies` clauses leave those fields out.

## Model

| member | source | states |
|---|---|---|
| Board.SquareName | js/app.js:98-99 | a file index and a rank index name a well-formed square ("a".."h" then "1".."8") from which both indices are read back |
| Board.SquareNameInjective | js/app.js:224-229 | two index pairs give the same name exactly when they are equal, so the retry loop's string comparison compares squares |
| Board.SquareNameOnto | js/app.js:224-228 | every well-formed square name is produced by some pair of indices in 0..7 |
| Board.PositionOf | js/app.js:84-85 | the square on file f, rank r+1 is drawn at position 8·(7−r)+f, which lies in row rank and column f |
| Board.BoardLayout | js/app.js:84-118 | the nested loops (ranks 8 down to 1, files a to h) draw exactly 64 squares, square i being CellAt(i): its name and its dark/light colour |
| Board.EverySquareDrawnOnce | js/app.js:84-100 | each of the 64 square names appears at exactly one position of the drawn board |
| Board.ColourRule | js/app.js:89-95 | a1 is dark, h1 is light, and squares sharing an edge have opposite colours |
| Scoring.Accuracy | js/app.js:299-302 | 0 with no question; otherwise the whole number nearest to 100·score/total, halves rounded up (its defining bounds) |
| Scoring.AccuracyBounds | js/app.js:299-302 | with score ≤ total the accuracy is at most 100, is 0 for no point and 100 when every question was scored |
| Scoring.AccuracySevenOfTen | js/app.js:299-302 | 7 of 10 is 70 |
| Scoring.AverageHundredths | js/app.js:304-308 | 0 with no response; otherwise the mean response time in hundredths of a second, rounded half up (its defining bounds) |
| Scoring.AverageOfOneTwoThree | js/app.js:304-308 | responses of 1, 2 and 3 s average to 2.00 s |
| Scoring.AverageOfEqualTimes | js/app.js:304-308 | when every response took the same time, the average is that time |
| Scoring.SumOfEqualTimes | js/app.js:306 | the sum of n equal times is n times the time |
| Clock.NatToString | js/app.js:313 | toString of a whole number: decimal digits, one digit exactly below 10, no leading zero |
| Clock.ParseNatToString | js/app.js:313 | the decimal notation reads back to the number |
| Clock.NatToStringShort | js/app.js:313 | the notation has at most two digits exactly below 100 |
| Clock.PadStart | js/app.js:313 | padStart: the result is max(width, length) long, ends with the input and is filled with the fill character in front |
| Clock.ParsePadded | js/app.js:313 | zero-padding keeps a digit string a digit string and keeps the number it denotes |
| Clock.Pad2ReadsBack | js/app.js:313 | a two-wide field reads back to its number, is at least two long and exactly two long below 100 |
| Clock.FormatTimeShape | js/app.js:310-314 | the display is minutes field, ':' and the two-digit seconds field, and parses as 60·minutes + seconds |
| Clock.FormatTimeRoundTrip | js/app.js:310-314 | every display is well formed and reads back to the seconds it shows |
| Clock.FormatTimeWidth | js/app.js:310-314 | the display has exactly five characters ("MM:SS") exactly below 6000 seconds |
| Clock.FormatTimeOneDigitFields | js/app.js:310-314 | one-digit minutes and seconds both get a leading zero |
| Clock.FormatTimeExample | js/app.js:310-314 | 125 seconds is shown as "02:05" |
| Leaderboard.RatioTransitive | js/app.js:180-181 | comparing ratios by cross-multiplication with positive totals is transitive, strictly when either step is strict |
| Leaderboard.PrecedesTransitive | js/app.js:180-183 | the comparator's "sorts before" is transitive |
| Leaderboard.TieTransitive | js/app.js:180-183 | ties under the comparator are transitive |
| Leaderboard.NotPrecedesTransitive | js/app.js:180-183 | "ranks at least as high" is transitive |
| Leaderboard.InsertRankedPermutes | js/app.js:180-183 | inserting an entry adds exactly that entry and keeps all others |
| Leaderboard.InsertRankedSorted | js/app.js:180-183 | inserting into a best-first table keeps it best-first |
| Leaderboard.SortRankedCorrect | js/app.js:180-183 | the sort returns a permutation of the table, best first |
| Leaderboard.SortSortedUnchanged | js/app.js:180-183 | a table already in order comes back unchanged |
| Leaderboard.SaveIntoSorted | js/app.js:179-183 | on a sorted table, push-then-sort inserts the new result after every entry it does not beat |
| Leaderboard.SaveKeepsOrder | js/app.js:179-188 | after a save the table holds min(10, n+1) entries, best first, all with positive totals |
| Leaderboard.SaveKeepsBest | js/app.js:179-188 | a save keeps only entries of the old table and the new result, and no entry cut off ranks above any entry kept |
| Leaderboard.KeepBest | js/app.js:186-188 | keeping the first n of a sorted table keeps it sorted and drops only entries ranking no higher than every kept one |
| Leaderboard.SaveIntoEmpty | js/app.js:179-188 | the first save into an empty table stores just that result |
| Leaderboard.SaveIntoFullTable | js/app.js:179-188 | on a full table a result that does not beat the tenth entry changes nothing; one that does replaces the tenth entry |
| Leaderboard.RemoveAtSpec | js/app.js:205 | splice(index, 1): an index in range removes that entry and shifts the later ones down, an index at or past the end removes nothing, a negative index from -n to -1 removes the entry counted from the end, and one below -n removes the first entry |
| Leaderboard.RemoveKeepsOrder | js/app.js:203-205 | a removal keeps the table sorted, ranked and no longer than before |
| Trainer.Resolve | js/app.js:45-47 | "white" and "black" are kept, "random" becomes white exactly when the coin says so |
| Trainer.ChessTrainer.constructor | js/app.js:3-35 | the initial state: no game, white side, empty target, zero counters, 10 rounds, the table read from storage; all invariants hold and the score bookkeeping is consistent |
| Trainer.ChessTrainer.ChooseRounds | js/app.js:21-23 | the rounds setting takes one of 5, 10, 15, 20 and keeps the invariants |
| Trainer.ChessTrainer.EndGame | js/app.js:147-150 | ends the game and stops the interval, which is then no longer live |
| Trainer.ChessTrainer.GenerateNewCoordinate | js/app.js:210-239 | counts one more question; past the last round it ends the game and keeps the target, otherwise the new target is a square other than the previous one, open for scoring, timed from now |
| Trainer.ChessTrainer.StartGame | js/app.js:44-71 | resolves the side, clears score, history and times, starts a new interval (never clearing an old one), and opens a first target on a fresh square; keeps the invariants and, when no advance is pending, the score bookkeeping |
| Trainer.ChessTrainer.PrepareGame | js/app.js:45-62 | the resets and the new interval that precede the first draw |
| Trainer.ChessTrainer.Tick | js/app.js:60-62 | a live interval adds one second to the clock |
| Trainer.ChessTrainer.CheckSquare | js/app.js:241-279 | ignored once the game ended; otherwise records the click and its time, scores a hit only on the first try, on a hit ends the game at the last round or schedules one advance, on a miss marks the question attempted; keeps the invariants and, with no advance pending, the score bookkeeping |
| Trainer.ChessTrainer.Advance | js/app.js:272 | the scheduled draw fires once, as GenerateNewCoordinate, and keeps the invariants and the score bookkeeping |
| Trainer.ChessTrainer.ResetGame | js/app.js:152-156 | back to the start screen without cancelling the interval or a pending advance |
| Trainer.ChessTrainer.SaveResults | js/app.js:158-200 | a second save changes nothing; the first stores push-sort-keep-ten of the table and this game's result, leaves the table sorted and at most ten long, and schedules the indicator reset |
| Trainer.ChessTrainer.SaveIndicatorTimeout | js/app.js:197-199 | the scheduled timeout clears the save indicator |
| Trainer.ChessTrainer.RemoveRecord | js/app.js:203-208 | on confirmation the table becomes splice(index, 1) of itself, otherwise it is unchanged; a sorted table stays sorted |
| Scenarios.FirstTryScores | js/app.js:260-273 | a first-try hit followed by the advance leaves score 1 after 2 questions, the new question unattempted |
| Scenarios.DoubleClickBeforeAdvance | js/app.js:260-273 | two hits on the target before the advance fires score twice for one question |

## Left out

- Rendering is not modelled: the DOM, square highlighting, coordinate labels, the board's orientation class and Alpine's `$nextTick`. `BoardLayout` models only the names and colours the drawing loop produces, in order.
- Reading and writing `localStorage` and the JSON encoding are not modelled. The constructor takes the stored table as a parameter and requires every entry to have a positive total. `JSON.parse` throws on malformed data in the code; that exception is not modelled, and neither is an empty table on malformed data.
- The `date` field (`new Date().toISOString()`), clock readings and the coin for a random side are parameters.
- The random retry loop in generateNewCoordinate is a choice among the other 63 squares. Its probabilistic termination is not modelled.
- Trainer.ChessTrainer.CheckSquare: response times are kept as whole milliseconds rather than seconds as floating-point numbers (`/ 1000`). `Scoring.AverageHundredths` scales them to the same hundredths of a second.
- Scoring.Accuracy: computes the exact rational quotient rounded half up. The code's floating-point `score / total * 100` could differ only where a float rounding error crosses a .5 boundary.
- Scoring.AverageHundredths: the code returns a string from `toFixed(2)` (and the number 0 for no response). The model returns the integer number of hundredths; negative times, which `toFixed` rounds differently, cannot arise from a monotone clock. The code's mean is a floating-point number of seconds, so a mean at an exact half-hundredth can round down where the model rounds up: one response of 1005 ms is 1.00499… s in floating point and shows "1.00", while the model gives 101 hundredths.
- Trainer.ChessTrainer.SaveResults: requires totalQuestions > 0. The save button exists only after a game has ended, so at least one question was asked. With 0 the code's comparator would compute NaN ratios, and that is not modelled.
- Trainer.ChessTrainer.RemoveRecord: the `confirm` dialog is a boolean parameter. The `alert` on a duplicate save is not modelled.
- Trainer.ChessTrainer.ChooseRounds: changing the rounds setting during a game can leave totalQuestions above it. The score bookkeeping is kept only when the new count is not below the questions already asked.
- Trainer.ChessTrainer.Consistent: an unconditional `score <= totalQuestions` does not hold of the code (see DoubleClickBeforeAdvance). It is proved only for clicks while no advance is pending and a game is running.
- `updateCoordinateVisibility` and `highlightSquare` only touch the page and are not modelled.
