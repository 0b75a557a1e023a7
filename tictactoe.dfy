/** The rules of tic-tac-toe on a 3 x 3 board: the starting position, whose
    turn it is, who has won, whether the game is over and what it is worth. */
module TicTacToe {
  import opened Wrappers

  /** The two players' marks. */
  datatype Mark = X | O

  /** A square holds a mark, or `None` when it is EMPTY. */
  type Square = Option<Mark>

  /** A board is a list of rows, each a list of squares. */
  type Board = seq<seq<Square>>

  /** Every function of this module is applied to 3 x 3 boards. */
  predicate IsBoard(b: Board) {
    |b| == 3 && forall i :: 0 <= i < 3 ==> |b[i]| == 3
  }

  /** The board `b` with mark `m` written into row `i`, column `j`. */
  function Place(b: Board, i: int, j: int, m: Mark): Board
    requires IsBoard(b) && 0 <= i < 3 && 0 <= j < 3
  {
    b[i := b[i][j := Some(m)]]
  }

  /** The starting position: nine empty squares. */
  function InitialState(): (b: Board)
    ensures IsBoard(b)
    ensures forall i, j :: 0 <= i < 3 && 0 <= j < 3 ==> b[i][j] == None
  {
    [[None, None, None], [None, None, None], [None, None, None]]
  }

  // ---------------------------------------------------------------------
  // Whose turn it is

  /** Number of squares of `row` holding `m`. */
  function CountInRow(row: seq<Square>, m: Mark): nat {
    if row == [] then 0 else (if row[0] == Some(m) then 1 else 0) + CountInRow(row[1..], m)
  }

  /** Number of squares of the board holding `m`, row by row. */
  function Count(b: Board, m: Mark): nat {
    if b == [] then 0 else CountInRow(b[0], m) + Count(b[1..], m)
  }

  /** A position reachable by play starting with X: X has made as many moves as O, or one more. */
  predicate TurnsAlternate(b: Board) {
    Count(b, X) == Count(b, O) || Count(b, X) == Count(b, O) + 1
  }

  /** The player to move: X when both have made the same number of moves,
      O otherwise (the counters start at zero). On a position reached by
      alternating play this is X exactly when an even number of moves has been made. */
  function Player(b: Board): (r: Mark)
    ensures r == X <==> Count(b, X) == Count(b, O)
    ensures TurnsAlternate(b) ==> (r == X <==> (Count(b, X) + Count(b, O)) % 2 == 0)
  {
    if Count(b, X) == Count(b, O) then X else O
  }

  /** Writing a mark into an empty square adds one to that mark's count and nothing to the other's. */
  lemma {:induction false} CountInRowAfterWrite(row: seq<Square>, j: int, m: Mark, n: Mark)
    requires 0 <= j < |row| && row[j] == None
    ensures CountInRow(row[j := Some(m)], n) == CountInRow(row, n) + (if n == m then 1 else 0)
  {
    if j > 0 {
      assert row[j := Some(m)][1..] == row[1..][j - 1 := Some(m)];
      CountInRowAfterWrite(row[1..], j - 1, m, n);
    } else {
      assert row[j := Some(m)][1..] == row[1..];
    }
  }

  lemma {:induction false} CountAfterWrite(b: Board, i: int, j: int, m: Mark, n: Mark)
    requires 0 <= i < |b| && 0 <= j < |b[i]| && b[i][j] == None
    ensures Count(b[i := b[i][j := Some(m)]], n) == Count(b, n) + (if n == m then 1 else 0)
  {
    var b' := b[i := b[i][j := Some(m)]];
    if i > 0 {
      assert b'[1..] == b[1..][i - 1 := b[i][j := Some(m)]];
      CountAfterWrite(b[1..], i - 1, j, m, n);
    } else {
      assert b'[1..] == b[1..];
      CountInRowAfterWrite(b[0], j, m, n);
    }
  }

  /** When the player to move marks an empty square, the turn passes to the other player. */
  lemma PlayerAlternates(b: Board, i: int, j: int)
    requires IsBoard(b) && 0 <= i < 3 && 0 <= j < 3 && b[i][j] == None
    requires TurnsAlternate(b)
    ensures Player(Place(b, i, j, Player(b))) != Player(b)
    ensures TurnsAlternate(Place(b, i, j, Player(b)))
  {
    CountAfterWrite(b, i, j, Player(b), X);
    CountAfterWrite(b, i, j, Player(b), O);
  }

  /** The opening moves checked by the project's tests. */
  lemma PlayerExamples()
    ensures Player(InitialState()) == X
    ensures Player(Place(InitialState(), 0, 0, X)) == O
    ensures Player(Place(Place(InitialState(), 0, 0, X), 1, 1, O)) == X
  {
    PlayerAlternates(InitialState(), 0, 0);
    PlayerAlternates(Place(InitialState(), 0, 0, X), 1, 1);
  }

  // ---------------------------------------------------------------------
  // Who has won

  /** Every square of `line` holds `m` (an all-EMPTY line belongs to nobody). */
  predicate AllAre(line: seq<Square>, m: Mark) {
    forall k :: 0 <= k < |line| ==> line[k] == Some(m)
  }

  ghost predicate OwnsRow(b: Board, i: int, m: Mark)
    requires IsBoard(b) && 0 <= i < 3
  {
    b[i][0] == Some(m) && b[i][1] == Some(m) && b[i][2] == Some(m)
  }

  ghost predicate OwnsColumn(b: Board, j: int, m: Mark)
    requires IsBoard(b) && 0 <= j < 3
  {
    b[0][j] == Some(m) && b[1][j] == Some(m) && b[2][j] == Some(m)
  }

  ghost predicate OwnsDiagonal(b: Board, m: Mark)
    requires IsBoard(b)
  {
    b[0][0] == Some(m) && b[1][1] == Some(m) && b[2][2] == Some(m)
  }

  ghost predicate OwnsAntiDiagonal(b: Board, m: Mark)
    requires IsBoard(b)
  {
    b[0][2] == Some(m) && b[1][1] == Some(m) && b[2][0] == Some(m)
  }

  /** Reference definition: some row, column or diagonal of the board is all `m`. */
  ghost predicate HasLine(b: Board, m: Mark)
    requires IsBoard(b)
  {
    || OwnsRow(b, 0, m) || OwnsRow(b, 1, m) || OwnsRow(b, 2, m)
    || OwnsColumn(b, 0, m) || OwnsColumn(b, 1, m) || OwnsColumn(b, 2, m)
    || OwnsDiagonal(b, m) || OwnsAntiDiagonal(b, m)
  }

  function Column(b: Board, c: int): seq<Square>
    requires IsBoard(b) && 0 <= c < 3
  {
    [b[0][c], b[1][c], b[2][c]]
  }

  /** Top-left to bottom-right. */
  function Diagonal(b: Board): seq<Square>
    requires IsBoard(b)
  {
    [b[0][0], b[1][1], b[2][2]]
  }

  /** Top-right to bottom-left. */
  function AntiDiagonal(b: Board): seq<Square>
    requires IsBoard(b)
  {
    [b[0][2], b[1][1], b[2][0]]
  }

  /** The lines in the order the winner check visits them: rows, columns, then the two diagonals. */
  function ScanOrder(b: Board): seq<seq<Square>>
    requires IsBoard(b)
  {
    b + [Column(b, 0), Column(b, 1), Column(b, 2), Diagonal(b), AntiDiagonal(b)]
  }

  /** Line `k` is all `m`, and no line before it is all X or all O. */
  predicate FirstOwnedAt(lines: seq<seq<Square>>, k: int, m: Mark) {
    && 0 <= k < |lines|
    && AllAre(lines[k], m)
    && forall j :: 0 <= j < k ==> !AllAre(lines[j], X) && !AllAre(lines[j], O)
  }

  /** The owner of the first line that is all X or all O, testing X before O on each line. */
  function FirstUniformLine(lines: seq<seq<Square>>): (r: Option<Mark>)
    ensures r.Some? ==> exists k :: FirstOwnedAt(lines, k, r.value)
    ensures r.None? <==> forall k :: 0 <= k < |lines| ==> !AllAre(lines[k], X) && !AllAre(lines[k], O)
  {
    if lines == [] then None
    else if AllAre(lines[0], X) then assert FirstOwnedAt(lines, 0, X); Some(X)
    else if AllAre(lines[0], O) then assert FirstOwnedAt(lines, 0, O); Some(O)
    else
      var r := FirstUniformLine(lines[1..]);
      assert forall k :: 0 <= k < |lines| - 1 ==> lines[1..][k] == lines[k + 1];
      if r.Some? then
        var k :| FirstOwnedAt(lines[1..], k, r.value);
        FirstOwnedShifts(lines, k, r.value);
        r
      else
        r
  }

  /** Skipping a first line that belongs to nobody moves the first owned line down by one. */
  lemma FirstOwnedShifts(lines: seq<seq<Square>>, k: int, m: Mark)
    requires lines != [] && !AllAre(lines[0], X) && !AllAre(lines[0], O)
    requires FirstOwnedAt(lines[1..], k, m)
    ensures FirstOwnedAt(lines, k + 1, m)
  {
    assert lines[k + 1] == lines[1..][k];
    forall j | 0 <= j < k + 1
      ensures !AllAre(lines[j], X) && !AllAre(lines[j], O)
    {
      if j > 0 {
        assert lines[j] == lines[1..][j - 1];
      }
    }
  }

  /** The winner of the game, if there is one: a player owns a whole row,
      column or diagonal; `None` exactly when neither player owns one. */
  function Winner(b: Board): (r: Option<Mark>)
    requires IsBoard(b)
    ensures r.Some? ==> HasLine(b, r.value)
    ensures r.None? <==> !HasLine(b, X) && !HasLine(b, O)
  {
    var lines := ScanOrder(b);
    var r := FirstUniformLine(lines);
    ScanOrderCoversLines(b, X);
    ScanOrderCoversLines(b, O);
    assert r.Some? ==> r.value.X? || r.value.O?;
    r
  }

  /** A player owns one of the scanned lines exactly when they own a row, column or diagonal. */
  lemma ScanOrderCoversLines(b: Board, m: Mark)
    requires IsBoard(b)
    ensures |ScanOrder(b)| == 8
    ensures (exists k :: 0 <= k < 8 && AllAre(ScanOrder(b)[k], m)) <==> HasLine(b, m)
  {
    var lines := ScanOrder(b);
    assert |lines| == 8;
    assert lines[0] == b[0] && lines[1] == b[1] && lines[2] == b[2];
    assert lines[3] == Column(b, 0) && lines[4] == Column(b, 1) && lines[5] == Column(b, 2);
    assert lines[6] == Diagonal(b) && lines[7] == AntiDiagonal(b);
    forall k | 0 <= k < 8
      ensures AllAre(lines[k], m) <==> lines[k][0] == Some(m) && lines[k][1] == Some(m) && lines[k][2] == Some(m)
    {
      AllAreOfThree(lines[k], m);
    }
  }

  lemma AllAreOfThree(line: seq<Square>, m: Mark)
    requires |line| == 3
    ensures AllAre(line, m) <==> line[0] == Some(m) && line[1] == Some(m) && line[2] == Some(m)
  {
  }

  /** When only one player owns a line, that player is the winner. */
  lemma SoleOwnerWins(b: Board, m: Mark)
    requires IsBoard(b) && HasLine(b, m)
    requires !HasLine(b, if m == X then O else X)
    ensures Winner(b) == Some(m)
  {
    assert Winner(b).Some?;
    assert Winner(b).value.X? || Winner(b).value.O?;
  }

  // Boards used by the project's tests.
  const XRow: Board := [[Some(X), Some(X), Some(X)], [Some(O), Some(O), None], [None, None, None]]
  const XColumn: Board := [[Some(X), Some(O), None], [Some(X), Some(O), None], [Some(X), None, None]]
  const XDiagonal: Board := [[Some(X), Some(O), Some(O)], [Some(O), Some(X), None], [None, None, Some(X)]]
  const ORow: Board := [[Some(O), Some(O), Some(O)], [Some(X), Some(X), None], [None, None, None]]
  const OColumn: Board := [[Some(O), Some(X), None], [Some(O), Some(X), None], [Some(O), None, None]]
  const ODiagonal: Board := [[Some(O), Some(X), Some(X)], [Some(X), Some(O), None], [None, None, Some(O)]]
  const Draw: Board := [[Some(X), Some(O), Some(X)], [Some(O), Some(X), Some(O)], [Some(O), Some(X), Some(O)]]
  const Unfinished: Board := [[Some(X), Some(O), None], [Some(O), Some(X), None], [None, None, None]]

  // Horizontal, vertical and diagonal wins for both players, as in the project's tests.

  lemma XRowWins() ensures Winner(XRow) == Some(X) {
    assert OwnsRow(XRow, 0, X);
    SoleOwnerWins(XRow, X);
  }

  lemma XColumnWins() ensures Winner(XColumn) == Some(X) {
    assert OwnsColumn(XColumn, 0, X);
    SoleOwnerWins(XColumn, X);
  }

  lemma XDiagonalWins() ensures Winner(XDiagonal) == Some(X) {
    assert OwnsDiagonal(XDiagonal, X);
    SoleOwnerWins(XDiagonal, X);
  }

  lemma ORowWins() ensures Winner(ORow) == Some(O) {
    assert OwnsRow(ORow, 0, O);
    SoleOwnerWins(ORow, O);
  }

  lemma OColumnWins() ensures Winner(OColumn) == Some(O) {
    assert OwnsColumn(OColumn, 0, O);
    SoleOwnerWins(OColumn, O);
  }

  lemma ODiagonalWins() ensures Winner(ODiagonal) == Some(O) {
    assert OwnsDiagonal(ODiagonal, O);
    SoleOwnerWins(ODiagonal, O);
  }

  /** A full board on which nobody owns a line has no winner. */
  lemma DrawExample()
    ensures Winner(Draw) == None
  {
    assert !HasLine(Draw, X) && !HasLine(Draw, O);
  }

  // ---------------------------------------------------------------------
  // End of game and its value

  /** Whether some row holds an EMPTY square, scanning row by row. */
  function HasEmpty(rows: seq<seq<Square>>): (r: bool)
    ensures r <==> exists i, j :: 0 <= i < |rows| && 0 <= j < |rows[i]| && rows[i][j] == None
  {
    if rows == [] then false
    else if None in rows[0] then true
    else
      var r := HasEmpty(rows[1..]);
      assert forall i :: 1 <= i < |rows| ==> rows[i] == rows[1..][i - 1];
      r
  }

  /** The game is over when someone has won or no square is EMPTY. */
  function Terminal(b: Board): (r: bool)
    requires IsBoard(b)
    ensures r <==> Winner(b).Some? || forall i, j :: 0 <= i < 3 && 0 <= j < 3 ==> b[i][j].Some?
  {
    if Winner(b).Some? then true else !HasEmpty(b)
  }

  /** 1 if X has won, -1 if O has won, 0 otherwise (also on unfinished boards). */
  function Utility(b: Board): (r: int)
    requires IsBoard(b)
    ensures r == 1 <==> Winner(b) == Some(X)
    ensures r == -1 <==> Winner(b) == Some(O)
    ensures r == 0 <==> !HasLine(b, X) && !HasLine(b, O)
  {
    match Winner(b)
    case None => 0
    case Some(X) => 1
    case Some(O) => -1
  }

  /** A board with a non-zero value is always a finished game. */
  lemma UtilityNonZeroIsTerminal(b: Board)
    requires IsBoard(b) && Utility(b) != 0
    ensures Terminal(b)
  {
  }

  // End-of-game positions and their values, as in the project's tests.

  lemma XRowIsTerminal() ensures Terminal(XRow) && Utility(XRow) == 1 {
    XRowWins();
  }

  lemma ORowIsWorthMinusOne() ensures Utility(ORow) == -1 {
    ORowWins();
  }

  lemma DrawIsTerminal() ensures Terminal(Draw) && Utility(Draw) == 0 {
    DrawExample();
  }

  lemma UnfinishedIsNotTerminal() ensures !Terminal(Unfinished) && Utility(Unfinished) == 0 {
    assert Unfinished[0][2] == None;
    assert !HasLine(Unfinished, X) && !HasLine(Unfinished, O);
  }

  lemma InitialStateIsNotTerminal() ensures !Terminal(InitialState()) && Utility(InitialState()) == 0 {
    assert InitialState()[0][0] == None;
    assert !HasLine(InitialState(), X) && !HasLine(InitialState(), O);
  }
}
