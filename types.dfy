/** The value types shared by the rule engine, the AI and the game screen:
    players, cells, board coordinates, the 4x4 board, moves and difficulty tiers. */
module Types {

  datatype Option<T> = None | Some(value: T)

  /** The two sides. */
  datatype Player = Red | Blue

  /** The side other than `p`. */
  function Opponent(p: Player): (q: Player)
    ensures q != p
    ensures p == Red <==> q == Blue
  {
    if p == Red then Blue else Red
  }

  /** A board square: empty, or holding a piece of one side. */
  datatype Cell = Empty | Piece(owner: Player)

  const BoardSize: nat := 4

  /** A row or column index of the board. */
  type Coord = i: int | 0 <= i < 4

  /** A square of the board, by row and column. */
  datatype Pos = Pos(r: Coord, c: Coord)

  ghost predicate IsGrid(b: seq<seq<Cell>>) {
    |b| == BoardSize && forall i :: 0 <= i < |b| ==> |b[i]| == BoardSize
  }

  const EmptyRow: seq<Cell> := [Empty, Empty, Empty, Empty]

  /** A 4x4 board, indexed `b[r][c]`. */
  type Board = b: seq<seq<Cell>> | IsGrid(b)
    witness [EmptyRow, EmptyRow, EmptyRow, EmptyRow]

  function At(b: Board, p: Pos): Cell {
    b[p.r][p.c]
  }

  /** The board `b` with square `p` holding `x`. */
  function Set(b: Board, p: Pos, x: Cell): (b': Board)
    ensures At(b', p) == x
    ensures forall q :: q != p ==> At(b', q) == At(b, q)
  {
    b[p.r := b[p.r][p.c := x]]
  }

  /** No element occurs twice. */
  predicate Distinct<T(==)>(s: seq<T>) {
    forall i, j :: 0 <= i < j < |s| ==> s[i] != s[j]
  }

  lemma AppendAssoc<T>(a: seq<T>, b: seq<T>, c: seq<T>)
    ensures a + (b + c) == (a + b) + c
  {
  }

  /** A piece moving from one square to another. */
  datatype Move = Move(from: Pos, to: Pos)

  datatype Difficulty = Easy | Medium | Hard
}
