/** The rule engine: the start position, legal destinations, piece counts and
    the "two-against-one" capture rule with full-line immunity. */
module GameLogic {
  import opened Types

  function Abs(x: int): nat {
    if x < 0 then -x else x
  }

  // ---------------------------------------------------------------------------
  // Start position
  // ---------------------------------------------------------------------------

  /** Row 0 all red, the last row all blue, everything else empty. */
  ghost predicate IsInitial(b: Board) {
    forall p: Pos :: At(b, p) == (if p.r == 0 then Piece(Red)
                                  else if p.r == BoardSize - 1 then Piece(Blue)
                                  else Empty)
  }

  /** Fills an empty grid, red along the top row and then blue along the bottom row. */
  method CreateInitialBoard() returns (board: Board)
    ensures IsInitial(board)
  {
    board := [EmptyRow, EmptyRow, EmptyRow, EmptyRow];
    for c := 0 to BoardSize
      invariant forall p: Pos :: At(board, p) == (if p.r == 0 && p.c < c then Piece(Red) else Empty)
    {
      board := Set(board, Pos(0, c), Piece(Red));
    }
    for c := 0 to BoardSize
      invariant forall p: Pos :: At(board, p) == (if p.r == 0 then Piece(Red)
                                                  else if p.r == BoardSize - 1 && p.c < c then Piece(Blue)
                                                  else Empty)
    {
      board := Set(board, Pos(BoardSize - 1, c), Piece(Blue));
    }
  }

  // ---------------------------------------------------------------------------
  // Legal destinations
  // ---------------------------------------------------------------------------

  /** Up, down, left, right, in the order they are tried. */
  const Directions: seq<(int, int)> := [(-1, 0), (1, 0), (0, -1), (0, 1)]

  /** The neighbour of `piece` in direction `d`, when it is on the board and empty. */
  function Step(b: Board, piece: Pos, d: nat): seq<Pos>
    requires d < |Directions|
  {
    var nr := piece.r + Directions[d].0;
    var nc := piece.c + Directions[d].1;
    if 0 <= nr < BoardSize && 0 <= nc < BoardSize && At(b, Pos(nr, nc)) == Empty
    then [Pos(nr, nc)] else []
  }

  /** The destinations found by trying the first `k` directions. */
  function DestinationsUpTo(b: Board, piece: Pos, k: nat): seq<Pos>
    requires k <= |Directions|
  {
    if k == 0 then [] else DestinationsUpTo(b, piece, k - 1) + Step(b, piece, k - 1)
  }

  function ValidMoves(b: Board, piece: Pos): seq<Pos> {
    DestinationsUpTo(b, piece, |Directions|)
  }

  /** Orthogonal neighbours: Manhattan distance exactly 1. */
  predicate Adjacent(p: Pos, q: Pos) {
    Abs(p.r - q.r) + Abs(p.c - q.c) == 1
  }

  /** Which of up (0), down (1), left (2), right (3) leads from `p` to `q`. */
  function Direction(p: Pos, q: Pos): nat {
    if q.r < p.r then 0 else if q.r > p.r then 1 else if q.c < p.c then 2 else 3
  }

  /** Pushes the empty on-board neighbours of `piece`, one direction at a time. */
  method GetValidMoves(b: Board, piece: Pos) returns (moves: seq<Pos>)
    ensures moves == ValidMoves(b, piece)
  {
    moves := [];
    for d := 0 to |Directions|
      invariant moves == DestinationsUpTo(b, piece, d)
    {
      var newR := piece.r + Directions[d].0;
      var newC := piece.c + Directions[d].1;
      assert DestinationsUpTo(b, piece, d + 1) == moves + Step(b, piece, d);
      if 0 <= newR < BoardSize && 0 <= newC < BoardSize && b[newR][newC] == Empty {
        assert Step(b, piece, d) == [Pos(newR, newC)];
        moves := moves + [Pos(newR, newC)];
      } else {
        assert Step(b, piece, d) == [];
      }
    }
  }

  lemma ValidMovesUnfold(b: Board, piece: Pos)
    ensures ValidMoves(b, piece) == Step(b, piece, 0) + Step(b, piece, 1) + Step(b, piece, 2) + Step(b, piece, 3)
  {
    assert DestinationsUpTo(b, piece, 1) == Step(b, piece, 0);
    assert DestinationsUpTo(b, piece, 2) == Step(b, piece, 0) + Step(b, piece, 1);
    assert DestinationsUpTo(b, piece, 3) == Step(b, piece, 0) + Step(b, piece, 1) + Step(b, piece, 2);
  }

  /** Trying direction `d` finds the empty neighbour in that direction, if any. */
  lemma StepSpec(b: Board, piece: Pos, d: nat)
    requires d < |Directions|
    ensures |Step(b, piece, d)| <= 1
    ensures forall q :: q in Step(b, piece, d) <==> Adjacent(piece, q) && At(b, q) == Empty && Direction(piece, q) == d
  {
  }

  /** The destinations are exactly the empty orthogonal neighbours, at most
      four of them, and never the piece's own square. */
  lemma ValidMovesSpec(b: Board, piece: Pos)
    ensures |ValidMoves(b, piece)| <= 4
    ensures forall q :: q in ValidMoves(b, piece) <==> Adjacent(piece, q) && At(b, q) == Empty
    ensures piece !in ValidMoves(b, piece)
  {
    ValidMovesUnfold(b, piece);
    StepSpec(b, piece, 0);
    StepSpec(b, piece, 1);
    StepSpec(b, piece, 2);
    StepSpec(b, piece, 3);
    forall q | Adjacent(piece, q) && At(b, q) == Empty
      ensures q in ValidMoves(b, piece)
    {
      assert q in Step(b, piece, Direction(piece, q));
    }
  }

  /** Destinations are listed up, down, left, right (so none is listed twice). */
  lemma ValidMovesOrder(b: Board, piece: Pos)
    ensures forall i, j :: 0 <= i < j < |ValidMoves(b, piece)| ==>
              Direction(piece, ValidMoves(b, piece)[i]) < Direction(piece, ValidMoves(b, piece)[j])
  {
    ValidMovesUnfold(b, piece);
    StepSpec(b, piece, 0);
    StepSpec(b, piece, 1);
    StepSpec(b, piece, 2);
    StepSpec(b, piece, 3);
  }

  // ---------------------------------------------------------------------------
  // Piece counts
  // ---------------------------------------------------------------------------

  /** How many cells of `row` hold a piece of `p`. */
  function CountRow(row: seq<Cell>, p: Player): (n: nat)
    ensures n <= |row|
  {
    if row == [] then 0
    else CountRow(row[..|row| - 1], p) + (if row[|row| - 1] == Piece(p) then 1 else 0)
  }

  /** How many pieces of `p` the first `k` rows hold. */
  function CountRows(b: Board, p: Player, k: nat): (n: nat)
    requires k <= BoardSize
    ensures n <= BoardSize * k
  {
    if k == 0 then 0 else CountRows(b, p, k - 1) + CountRow(b[k - 1], p)
  }

  function Count(b: Board, p: Player): (n: nat)
    ensures n <= BoardSize * BoardSize
  {
    CountRows(b, p, BoardSize)
  }

  lemma CountByRows(b: Board, p: Player)
    ensures Count(b, p) == CountRow(b[0], p) + CountRow(b[1], p) + CountRow(b[2], p) + CountRow(b[3], p)
  {
    assert CountRows(b, p, 1) == CountRow(b[0], p);
    assert CountRows(b, p, 2) == CountRow(b[0], p) + CountRow(b[1], p);
    assert CountRows(b, p, 3) == CountRow(b[0], p) + CountRow(b[1], p) + CountRow(b[2], p);
  }

  /** All cells, row after row. */
  function Cells(b: Board): seq<Cell> {
    b[0] + b[1] + b[2] + b[3]
  }

  /** Scans every cell row by row, counting those that hold `player`. */
  method CountPieces(b: Board, player: Player) returns (count: nat)
    ensures count == Count(b, player)
  {
    count := 0;
    for r := 0 to BoardSize
      invariant count == CountRows(b, player, r)
    {
      for c := 0 to BoardSize
        invariant count == CountRows(b, player, r) + CountRow(b[r][..c], player)
      {
        assert b[r][..c + 1][..c] == b[r][..c];
        if b[r][c] == Piece(player) {
          count := count + 1;
        }
      }
      assert b[r][..BoardSize] == b[r];
    }
  }

  lemma {:induction false} CountRowIsMultiplicity(row: seq<Cell>, p: Player)
    ensures CountRow(row, p) == multiset(row)[Piece(p)]
  {
    if row != [] {
      CountRowIsMultiplicity(row[..|row| - 1], p);
      assert row == row[..|row| - 1] + [row[|row| - 1]];
    }
  }

  /** The count is the number of cells of the board that hold a piece of `p`. */
  lemma CountIsMultiplicity(b: Board, p: Player)
    ensures Count(b, p) == multiset(Cells(b))[Piece(p)]
  {
    CountByRows(b, p);
    CountRowIsMultiplicity(b[0], p);
    CountRowIsMultiplicity(b[1], p);
    CountRowIsMultiplicity(b[2], p);
    CountRowIsMultiplicity(b[3], p);
  }

  lemma {:induction false} CountRowUpdate(row: seq<Cell>, i: nat, x: Cell, p: Player)
    requires i < |row|
    ensures CountRow(row[i := x], p)
         == CountRow(row, p) - (if row[i] == Piece(p) then 1 else 0) + (if x == Piece(p) then 1 else 0)
  {
    var n := |row|;
    if i == n - 1 {
      assert row[i := x][..n - 1] == row[..n - 1];
    } else {
      CountRowUpdate(row[..n - 1], i, x, p);
      assert row[i := x][..n - 1] == row[..n - 1][i := x];
    }
  }

  /** Writing one square changes a side's count by at most the piece removed and the piece placed. */
  lemma CountAfterSet(b: Board, q: Pos, x: Cell, p: Player)
    ensures Count(Set(b, q, x), p)
         == Count(b, p) - (if At(b, q) == Piece(p) then 1 else 0) + (if x == Piece(p) then 1 else 0)
  {
    var b' := Set(b, q, x);
    CountByRows(b, p);
    CountByRows(b', p);
    CountRowUpdate(b[q.r], q.c, x, p);
    assert b'[q.r] == b[q.r][q.c := x];
    assert forall k :: 0 <= k < BoardSize && k != q.r ==> b'[k] == b[k];
  }

  lemma CountRowOfFour(row: seq<Cell>, p: Player)
    requires |row| == 4
    ensures CountRow(row, p) == (if row[0] == Piece(p) then 1 else 0) + (if row[1] == Piece(p) then 1 else 0)
                              + (if row[2] == Piece(p) then 1 else 0) + (if row[3] == Piece(p) then 1 else 0)
  {
    var one := if row[0] == Piece(p) then 1 else 0;
    var two := one + if row[1] == Piece(p) then 1 else 0;
    var three := two + if row[2] == Piece(p) then 1 else 0;
    assert row[..1][..0] == [];
    assert CountRow(row[..1], p) == one;
    assert row[..2][..1] == row[..1];
    assert CountRow(row[..2], p) == two;
    assert row[..3][..2] == row[..2];
    assert CountRow(row[..3], p) == three;
    assert row[..3] == row[..|row| - 1];
  }

  /** The start position has four pieces per side. */
  lemma InitialCounts(b: Board)
    requires IsInitial(b)
    ensures Count(b, Red) == 4 && Count(b, Blue) == 4
  {
    CountByRows(b, Red);
    CountByRows(b, Blue);
    forall r: Coord, p: Player
      ensures CountRow(b[r], p) == if r == 0 then (if p == Red then 4 else 0)
                                   else if r == 3 then (if p == Blue then 4 else 0)
                                   else 0
    {
      CountRowOfFour(b[r], p);
      assert At(b, Pos(r, 0)) == b[r][0] && At(b, Pos(r, 1)) == b[r][1];
      assert At(b, Pos(r, 2)) == b[r][2] && At(b, Pos(r, 3)) == b[r][3];
    }
  }

  // ---------------------------------------------------------------------------
  // Captures
  // ---------------------------------------------------------------------------

  /** The board being worked on and the victims found so far, in order. */
  datatype Scan = Scan(board: Board, captured: seq<Pos>)

  function RowLine(r: Coord): seq<Pos> {
    [Pos(r, 0), Pos(r, 1), Pos(r, 2), Pos(r, 3)]
  }

  function ColLine(c: Coord): seq<Pos> {
    [Pos(0, c), Pos(1, c), Pos(2, c), Pos(3, c)]
  }

  /** The four cells of a line, in line order. */
  function Read(b: Board, line: seq<Pos>): (cells: seq<Cell>)
    requires |line| == BoardSize
    ensures |cells| == BoardSize
    ensures forall j :: 0 <= j < BoardSize ==> cells[j] == At(b, line[j])
  {
    [At(b, line[0]), At(b, line[1]), At(b, line[2]), At(b, line[3])]
  }

  /** How many cells of a line hold a piece. */
  function Occupied(cells: seq<Cell>): (n: nat)
    ensures n <= |cells|
  {
    if cells == [] then 0
    else Occupied(cells[..|cells| - 1]) + (if cells[|cells| - 1] != Empty then 1 else 0)
  }

  predicate Full(cells: seq<Cell>) {
    Occupied(cells) == BoardSize
  }

  /** The square that just moved is one of the three squares of window `i`. */
  predicate Involves(line: seq<Pos>, i: nat, last: Pos)
    requires i + 2 < |line|
  {
    line[i] == last || line[i + 1] == last || line[i + 2] == last
  }

  /** One window of `checkLine`: `view` holds the cells the window reads,
      the victim test reads the board being worked on. */
  function Window(s: Scan, view: seq<Cell>, line: seq<Pos>, i: nat, last: Pos, mover: Player): Scan
    requires |view| == BoardSize && |line| == BoardSize && i + 2 < BoardSize
  {
    var me, opp := Piece(mover), Piece(Opponent(mover));
    var p1, p2, p3 := view[i], view[i + 1], view[i + 2];
    var s1 :=
      if p1 == me && p2 == me && p3 == opp && Involves(line, i, last) && At(s.board, line[i + 2]) == opp
      then Scan(Set(s.board, line[i + 2], Empty), s.captured + [line[i + 2]])
      else s;
    if p1 == opp && p2 == me && p3 == me && Involves(line, i, last) && At(s1.board, line[i]) == opp
    then Scan(Set(s1.board, line[i], Empty), s1.captured + [line[i]])
    else s1
  }

  /** What a window reads: the live line of the board being worked on when the
      line aliases a row of it, otherwise the snapshot taken before the scan. */
  function View(b: Board, line: seq<Pos>, snapshot: seq<Cell>, aliased: bool): seq<Cell>
    requires |line| == BoardSize
  {
    if aliased then Read(b, line) else snapshot
  }

  /** The first `k` windows of a line, in order. */
  function Windows(s: Scan, line: seq<Pos>, snapshot: seq<Cell>, aliased: bool, last: Pos, mover: Player, k: nat): Scan
    requires |line| == BoardSize && |snapshot| == BoardSize && k <= BoardSize - 2
  {
    if k == 0 then s
    else
      var t := Windows(s, line, snapshot, aliased, last, mover, k - 1);
      Window(t, View(t.board, line, snapshot, aliased), line, k - 1, last, mover)
  }

  /** `checkLine`: nothing on a full line, otherwise every window in turn. */
  function CheckLine(s: Scan, line: seq<Pos>, snapshot: seq<Cell>, aliased: bool, last: Pos, mover: Player): Scan
    requires |line| == BoardSize && |snapshot| == BoardSize
  {
    if Full(snapshot) then s else Windows(s, line, snapshot, aliased, last, mover, BoardSize - 2)
  }

  /** `processCaptures`: the row of the square just moved to (read live),
      then its column, read after the row's captures. */
  function Captures(b: Board, last: Pos, mover: Player): Scan {
    var row := RowLine(last.r);
    var afterRow := CheckLine(Scan(b, []), row, Read(b, row), true, last, mover);
    var col := ColLine(last.c);
    CheckLine(afterRow, col, Read(afterRow.board, col), false, last, mover)
  }

  /** One window of `checkLine` on the working copy: the two patterns, each
      honoured only when the moved square is in the window and the victim is
      still an enemy piece. */
  method CheckWindow(next: Board, captured: seq<Pos>, view: seq<Cell>, line: seq<Pos>, i: nat,
                     last: Pos, mover: Player)
    returns (next': Board, captured': seq<Pos>)
    requires |view| == BoardSize && |line| == BoardSize && i + 2 < BoardSize
    ensures Scan(next', captured') == Window(Scan(next, captured), view, line, i, last, mover)
  {
    next', captured' := next, captured;
    var me, opponent := Piece(mover), Piece(Opponent(mover));
    var p1, p2, p3 := view[i], view[i + 1], view[i + 2];
    if p1 == me && p2 == me && p3 == opponent {
      var movedPieceInvolved := line[i] == last || line[i + 1] == last || line[i + 2] == last;
      if movedPieceInvolved {
        var victim := line[i + 2];
        if At(next', victim) == opponent {
          next' := Set(next', victim, Empty);
          captured' := captured' + [victim];
        }
      }
    }
    if p1 == opponent && p2 == me && p3 == me {
      var movedPieceInvolved := line[i] == last || line[i + 1] == last || line[i + 2] == last;
      if movedPieceInvolved {
        var victim := line[i];
        if At(next', victim) == opponent {
          next' := Set(next', victim, Empty);
          captured' := captured' + [victim];
        }
      }
    }
  }

  /** `checkLine` on the working copy: nothing on a full line, otherwise the
      windows at 0 and 1 in turn, each reading the line as `View` says. */
  method ScanLine(next: Board, captured: seq<Pos>, line: seq<Pos>, lineCells: seq<Cell>, aliased: bool,
                  last: Pos, mover: Player)
    returns (next': Board, captured': seq<Pos>)
    requires |line| == BoardSize && |lineCells| == BoardSize
    ensures Scan(next', captured') == CheckLine(Scan(next, captured), line, lineCells, aliased, last, mover)
  {
    next', captured' := next, captured;
    if Occupied(lineCells) == BoardSize {
      return;
    }
    for i := 0 to BoardSize - 2
      invariant Scan(next', captured') == Windows(Scan(next, captured), line, lineCells, aliased, last, mover, i)
    {
      var view := if aliased then Read(next', line) else lineCells;
      next', captured' := CheckWindow(next', captured', view, line, i, last, mover);
    }
  }

  /** Works on a copy of the board: checks the row of `lastMove`, whose cells the
      scan reads live, then a snapshot of its column taken after the row's captures. */
  method ProcessCaptures(board: Board, lastMove: Pos, currentPlayer: Player)
    returns (newBoard: Board, captured: seq<Pos>)
    ensures Scan(newBoard, captured) == Captures(board, lastMove, currentPlayer)
  {
    var nextBoard := board;
    captured := [];
    var row := RowLine(lastMove.r);
    nextBoard, captured := ScanLine(nextBoard, captured, row, Read(nextBoard, row), true, lastMove, currentPlayer);
    var col := ColLine(lastMove.c);
    nextBoard, captured := ScanLine(nextBoard, captured, col, Read(nextBoard, col), false, lastMove, currentPlayer);
    newBoard := nextBoard;
  }
}
