/** The values the trainer stores: board orientation, one answered click, one saved game. */
module Records {

  /** Which side of the board is drawn at the bottom. A "random" request is resolved
      to one of these two when a game starts, so it is never stored. */
  datatype Orientation = White | Black

  /** The orientation as it is written into a saved result: the name with a capital letter. */
  function Label(o: Orientation): string
  {
    match o
    case White => "White"
    case Black => "Black"
  }

  /** One click during a game: the target of the moment, the square clicked, whether they
      agree, and the response time in milliseconds since the target was drawn. */
  datatype HistoryEntry = HistoryEntry(coordinate: string, answered: string, correct: bool, time: int)

  /** One leaderboard entry. `accuracy` is a whole percentage and `avgTime` the mean
      response time in hundredths of a second. */
  datatype SavedResult = SavedResult(
    date: string,
    orientation: string,
    score: nat,
    total: nat,
    rounds: nat,
    accuracy: nat,
    avgTime: int,
    history: seq<HistoryEntry>)
}
