/** The 64 squares: their names, the order in which the board draws them and their colour. */
module Board {

  const Files: string := "abcdefgh"
  const Ranks: string := "12345678"

  /** A square name as the board and the target generator write it: a file letter
      followed by a rank digit, e.g. "e4". */
  predicate IsSquare(s: string)
  {
    |s| == 2 && 'a' <= s[0] <= 'h' && '1' <= s[1] <= '8'
  }

  /** The square on file index `f` (0 is the a-file) and rank index `r` (0 is rank 1). */
  function SquareName(f: nat, r: nat): (name: string)
    requires f < 8 && r < 8
    ensures IsSquare(name)
    ensures name[0] as int - 'a' as int == f && name[1] as int - '1' as int == r
  {
    [Files[f], Ranks[r]]
  }

  /** Two squares have the same name exactly when they are the same square. */
  lemma SquareNameInjective(f: nat, r: nat, g: nat, q: nat)
    requires f < 8 && r < 8 && g < 8 && q < 8
    ensures SquareName(f, r) == SquareName(g, q) <==> f == g && r == q
  {
    if SquareName(f, r) == SquareName(g, q) {
      assert SquareName(f, r)[0] == SquareName(g, q)[0];
      assert SquareName(f, r)[1] == SquareName(g, q)[1];
    }
  }

  /** Every well-formed name is the name of one of the 64 squares. */
  lemma SquareNameOnto(s: string)
    requires IsSquare(s)
    ensures SquareName(s[0] as int - 'a' as int, s[1] as int - '1' as int) == s
  {
    var f, r := s[0] as int - 'a' as int, s[1] as int - '1' as int;
    assert SquareName(f, r)[0] == s[0] && SquareName(f, r)[1] == s[1];
  }

  /** One square of the drawn board: the name it reports when clicked and its colour. */
  datatype Cell = Cell(coord: string, dark: bool)

  /** The board is drawn row by row, from rank 8 down to rank 1, each row from the
      a-file to the h-file. Position `i` therefore holds rank 8 - i / 8 and file i % 8. */
  function RankAt(i: nat): nat requires i < 64 { 8 - i / 8 }
  function FileAt(i: nat): nat requires i < 64 { i % 8 }

  /** A square is dark when its rank number (1 to 8) plus its file index (0 to 7) is odd. */
  predicate IsDark(rank: nat, file: nat)
  {
    (rank + file) % 2 == 1
  }

  /** The position at which the square on file index f and rank index r is drawn. */
  function PositionOf(f: nat, r: nat): (i: nat)
    requires f < 8 && r < 8
    ensures i < 64 && FileAt(i) == f && RankAt(i) == r + 1
  {
    8 * (7 - r) + f
  }

  /** The square drawn at position `i`. */
  function CellAt(i: nat): Cell
    requires i < 64
  {
    Cell(SquareName(FileAt(i), RankAt(i) - 1), IsDark(RankAt(i), FileAt(i)))
  }

  /** Position 8 * (8 - rank) + file is where the inner loop for `rank` puts `file`. */
  lemma RowPosition(rank: nat, file: nat)
    requires 1 <= rank <= 8 && file < 8
    ensures 8 * (8 - rank) + file < 64
    ensures RankAt(8 * (8 - rank) + file) == rank && FileAt(8 * (8 - rank) + file) == file
  {
    var i := 8 * (8 - rank) + file;
    assert i / 8 == 8 - rank && i % 8 == file;
  }

  /** The first |cells| squares of the board, in drawing order. */
  ghost predicate DrawnSoFar(cells: seq<Cell>)
  {
    |cells| <= 64 && forall i :: 0 <= i < |cells| ==> cells[i] == CellAt(i)
  }

  /** Drawing square `rank`/`file` next continues the drawing order. */
  lemma DrawNext(cells: seq<Cell>, rank: nat, file: nat)
    requires 1 <= rank <= 8 && file < 8 && |cells| == 8 * (8 - rank) + file
    requires DrawnSoFar(cells)
    ensures DrawnSoFar(cells + [Cell(SquareName(file, rank - 1), IsDark(rank, file))])
  {
    RowPosition(rank, file);
    var next := cells + [Cell(SquareName(file, rank - 1), IsDark(rank, file))];
    assert next[|cells|] == CellAt(|cells|);
  }

  /** Builds the 64 squares in drawing order. */
  method BoardLayout() returns (cells: seq<Cell>)
    ensures |cells| == 64
    ensures forall i :: 0 <= i < 64 ==> cells[i] == CellAt(i)
  {
    cells := [];
    var rank := 8;
    while rank >= 1
      invariant 0 <= rank <= 8
      invariant |cells| == 8 * (8 - rank)
      invariant DrawnSoFar(cells)
    {
      var file := 0;
      while file < 8
        invariant 0 <= file <= 8
        invariant |cells| == 8 * (8 - rank) + file
        invariant DrawnSoFar(cells)
      {
        DrawNext(cells, rank, file);
        cells := cells + [Cell(SquareName(file, rank - 1), IsDark(rank, file))];
        file := file + 1;
      }
      rank := rank - 1;
    }
  }

  /** Every square appears on the drawn board exactly once, at PositionOf. */
  lemma EverySquareDrawnOnce(f: nat, r: nat, i: nat)
    requires f < 8 && r < 8 && i < 64
    ensures CellAt(i).coord == SquareName(f, r) <==> i == PositionOf(f, r)
  {
    SquareNameInjective(FileAt(i), RankAt(i) - 1, f, r);
  }

  /** The colour rule makes a1 dark and h1 light, and any two squares that share an edge
      differ in colour. */
  lemma ColourRule(rank: nat, file: nat)
    requires 1 <= rank <= 8 && file < 8
    ensures IsDark(1, 0) && !IsDark(1, 7)
    ensures file < 7 ==> (IsDark(rank, file) <==> !IsDark(rank, file + 1))
    ensures rank < 8 ==> (IsDark(rank, file) <==> !IsDark(rank + 1, file))
  {
  }
}
