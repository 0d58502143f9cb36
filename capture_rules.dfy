/** What `processCaptures` guarantees: which squares it clears (the declarative
    two-against-one rule, line by line), that it touches nothing else, and how
    the piece counts change. */
module CaptureRules {
  import opened Types
  import opened GameLogic

  lemma LinesAreDistinct(r: Coord, c: Coord)
    ensures Distinct(RowLine(r)) && Distinct(ColLine(c))
  {
  }

  // ---------------------------------------------------------------------------
  // The rule, stated on the four cells of a line as read when its scan starts
  // ---------------------------------------------------------------------------

  /** Window `i` contains the square just moved to and reads `mover, mover, enemy`
      with `j` the enemy (at `i + 2`), or `enemy, mover, mover` with `j` the enemy (at `i`). */
  predicate Pattern(cells: seq<Cell>, line: seq<Pos>, last: Pos, mover: Player, i: nat, j: nat)
    requires |cells| == BoardSize && |line| == BoardSize && i + 2 < BoardSize
  {
    var me, opp := Piece(mover), Piece(Opponent(mover));
    Involves(line, i, last) &&
    ((j == i + 2 && cells[i] == me && cells[i + 1] == me && cells[i + 2] == opp) ||
     (j == i && cells[i] == opp && cells[i + 1] == me && cells[i + 2] == me))
  }

  /** Cell `j` is taken: the line is not full and some window flanks it. */
  predicate Flanked(cells: seq<Cell>, line: seq<Pos>, last: Pos, mover: Player, j: nat)
    requires |cells| == BoardSize && |line| == BoardSize
  {
    !Full(cells) && (Pattern(cells, line, last, mover, 0, j) || Pattern(cells, line, last, mover, 1, j))
  }

  function Flank(cells: seq<Cell>, line: seq<Pos>, last: Pos, mover: Player, j: nat): seq<Pos>
    requires |cells| == BoardSize && |line| == BoardSize && j < BoardSize
  {
    if Flanked(cells, line, last, mover, j) then [line[j]] else []
  }

  /** The flanked squares of a line, in line order. */
  function Victims(cells: seq<Cell>, line: seq<Pos>, last: Pos, mover: Player): seq<Pos>
    requires |cells| == BoardSize && |line| == BoardSize
  {
    Flank(cells, line, last, mover, 0) + Flank(cells, line, last, mover, 1)
    + Flank(cells, line, last, mover, 2) + Flank(cells, line, last, mover, 3)
  }

  /** `b` with the listed squares emptied. */
  function Without(b: Board, vs: seq<Pos>): (b': Board)
    ensures forall q :: At(b', q) == if q in vs then Empty else At(b, q)
  {
    if vs == [] then b else Set(Without(b, vs[..|vs| - 1]), vs[|vs| - 1], Empty)
  }

  lemma OccupiedOfFour(cells: seq<Cell>)
    requires |cells| == BoardSize
    ensures Full(cells) <==> cells[0] != Empty && cells[1] != Empty && cells[2] != Empty && cells[3] != Empty
  {
    assert cells[..1][..0] == [];
    assert cells[..2][..1] == cells[..1];
    assert cells[..3][..2] == cells[..2];
    assert Occupied(cells[..1]) <= 1 && Occupied(cells[..2]) <= 2 && Occupied(cells[..3]) <= 3;
    assert Occupied(cells[..1]) == 1 <==> cells[0] != Empty;
    assert Occupied(cells[..2]) == 2 <==> cells[0] != Empty && cells[1] != Empty;
    assert Occupied(cells[..3]) == 3 <==> cells[0] != Empty && cells[1] != Empty && cells[2] != Empty;
  }

  /** At most one square of a line is ever flanked: two flanks on one line
      would need `enemy, mover, mover, enemy`, which fills the line. */
  lemma AtMostOneVictim(cells: seq<Cell>, line: seq<Pos>, last: Pos, mover: Player)
    requires |cells| == BoardSize && |line| == BoardSize
    ensures |Victims(cells, line, last, mover)| <= 1
  {
    OccupiedOfFour(cells);
  }

  /** The board `s` with the single square `v` cleared and listed. */
  function Take(s: Scan, v: Pos): Scan {
    Scan(Set(s.board, v, Empty), s.captured + [v])
  }

  /** The window at 0 reads the cells as the scan starts and takes the enemy
      it flanks, if any. */
  lemma FirstWindow(s: Scan, line: seq<Pos>, cells: seq<Cell>, aliased: bool, last: Pos, mover: Player)
    requires |line| == BoardSize && cells == Read(s.board, line)
    ensures Window(s, View(s.board, line, cells, aliased), line, 0, last, mover)
         == if Pattern(cells, line, last, mover, 0, 2) then Take(s, line[2])
            else if Pattern(cells, line, last, mover, 0, 0) then Take(s, line[0])
            else s
  {
  }

  /** When the window at 0 took nothing, the window at 1 reads the same cells. */
  lemma SecondWindowAlone(s: Scan, line: seq<Pos>, cells: seq<Cell>, aliased: bool, last: Pos, mover: Player)
    requires |line| == BoardSize && cells == Read(s.board, line)
    ensures Window(s, View(s.board, line, cells, aliased), line, 1, last, mover)
         == if Pattern(cells, line, last, mover, 1, 3) then Take(s, line[3])
            else if Pattern(cells, line, last, mover, 1, 1) then Take(s, line[1])
            else s
  {
  }

  /** When the window at 0 took a piece, the window at 1 takes nothing, live
      or from the snapshot: the taken square breaks the pattern, or the line
      would have been full. */
  lemma SecondWindowAfterTake(s: Scan, line: seq<Pos>, cells: seq<Cell>, aliased: bool, last: Pos, mover: Player, j: nat)
    requires |line| == BoardSize && Distinct(line) && cells == Read(s.board, line) && !Full(cells)
    requires Pattern(cells, line, last, mover, 0, j)
    ensures var t := Take(s, line[j]);
            Window(t, View(t.board, line, cells, aliased), line, 1, last, mover) == t
  {
    OccupiedOfFour(cells);
    var t := Take(s, line[j]);
    assert At(t.board, line[1]) == cells[1] && At(t.board, line[3]) == cells[3];
    assert At(t.board, line[2]) == if j == 2 then Empty else cells[2];
  }

  lemma WithoutOne(b: Board, v: Pos)
    ensures Without(b, [v]) == Set(b, v, Empty)
  {
    assert [v][..0] == [];
  }

  /** `checkLine` clears exactly the flanked squares of the line (at most one)
      and lists them after the earlier victims, whether its windows read the
      line live (the row) or from the snapshot (the column). */
  lemma LineRule(s: Scan, line: seq<Pos>, aliased: bool, last: Pos, mover: Player)
    requires |line| == BoardSize && Distinct(line)
    ensures var cells := Read(s.board, line);
            var vs := Victims(cells, line, last, mover);
            && |vs| <= 1
            && CheckLine(s, line, cells, aliased, last, mover) == Scan(Without(s.board, vs), s.captured + vs)
  {
    var cells := Read(s.board, line);
    var vs := Victims(cells, line, last, mover);
    AtMostOneVictim(cells, line, last, mover);
    if Full(cells) {
      FullLineHasNoVictims(cells, line, last, mover);
      return;
    }
    FirstWindow(s, line, cells, aliased, last, mover);
    var t0 := Window(s, View(s.board, line, cells, aliased), line, 0, last, mover);
    assert Windows(s, line, cells, aliased, last, mover, 1) == t0;
    var t1 := Window(t0, View(t0.board, line, cells, aliased), line, 1, last, mover);
    assert CheckLine(s, line, cells, aliased, last, mover) == t1;
    if Pattern(cells, line, last, mover, 0, 2) {
      SecondWindowAfterTake(s, line, cells, aliased, last, mover, 2);
      assert vs == [line[2]];
      WithoutOne(s.board, line[2]);
    } else if Pattern(cells, line, last, mover, 0, 0) {
      SecondWindowAfterTake(s, line, cells, aliased, last, mover, 0);
      assert vs == [line[0]];
      WithoutOne(s.board, line[0]);
    } else {
      SecondWindowAlone(s, line, cells, aliased, last, mover);
      if Pattern(cells, line, last, mover, 1, 3) {
        assert vs == [line[3]];
        WithoutOne(s.board, line[3]);
      } else if Pattern(cells, line, last, mover, 1, 1) {
        assert vs == [line[1]];
        WithoutOne(s.board, line[1]);
      } else {
        assert vs == [];
      }
    }
  }

  // ---------------------------------------------------------------------------
  // The whole of processCaptures
  // ---------------------------------------------------------------------------

  /** `processCaptures` clears the flanked squares of the row of the square just
      moved to, as the row reads before the scan, then those of its column, as
      the column reads after the row's captures; it lists row victims first.
      A full line, as read when its scan starts, gives no victims. */
  lemma CapturesRule(b: Board, last: Pos, mover: Player)
    ensures var row, col := RowLine(last.r), ColLine(last.c);
            var rowVictims := Victims(Read(b, row), row, last, mover);
            var afterRow := Without(b, rowVictims);
            var colVictims := Victims(Read(afterRow, col), col, last, mover);
            && |rowVictims| <= 1 && |colVictims| <= 1
            && (Full(Read(b, row)) ==> rowVictims == [])
            && (Full(Read(afterRow, col)) ==> colVictims == [])
            && Captures(b, last, mover) == Scan(Without(afterRow, colVictims), rowVictims + colVictims)
  {
    var row, col := RowLine(last.r), ColLine(last.c);
    LinesAreDistinct(last.r, last.c);
    var rowVictims := Victims(Read(b, row), row, last, mover);
    var afterRow := Without(b, rowVictims);
    var colVictims := Victims(Read(afterRow, col), col, last, mover);
    LineRule(Scan(b, []), row, true, last, mover);
    var s1 := CheckLine(Scan(b, []), row, Read(b, row), true, last, mover);
    assert s1 == Scan(afterRow, rowVictims);
    LineRule(s1, col, false, last, mover);
    assert Captures(b, last, mover) == CheckLine(s1, col, Read(s1.board, col), false, last, mover);
    FullLineHasNoVictims(Read(b, row), row, last, mover);
    FullLineHasNoVictims(Read(afterRow, col), col, last, mover);
  }

  /** Full-line immunity. */
  lemma FullLineHasNoVictims(cells: seq<Cell>, line: seq<Pos>, last: Pos, mover: Player)
    requires |cells| == BoardSize && |line| == BoardSize
    ensures Full(cells) ==> Victims(cells, line, last, mover) == []
  {
  }

  lemma VictimsOfRow(cells: seq<Cell>, r: Coord, last: Pos, mover: Player)
    requires |cells| == BoardSize
    ensures forall q :: q in Victims(cells, RowLine(r), last, mover) ==> q.r == r
  {
  }

  lemma VictimsOfColumn(cells: seq<Cell>, c: Coord, last: Pos, mover: Player)
    requires |cells| == BoardSize
    ensures forall q :: q in Victims(cells, ColLine(c), last, mover) ==> q.c == c
  {
  }

  /** At most one victim from the row, then at most one from the column. */
  lemma RowThenColumn(vr: seq<Pos>, vc: seq<Pos>, last: Pos)
    requires |vr| <= 1 && |vc| <= 1
    requires forall q :: q in vr ==> q.r == last.r
    requires forall q :: q in vc ==> q.c == last.c
    ensures var vs := vr + vc;
            && |vs| <= 2
            && (forall k :: 0 <= k < |vs| ==> vs[k].r == last.r || vs[k].c == last.c)
            && (|vs| == 2 ==> vs[0].r == last.r && vs[1].c == last.c)
  {
    var vs := vr + vc;
    forall k | 0 <= k < |vs|
      ensures vs[k].r == last.r || vs[k].c == last.c
    {
      if k < |vr| { assert vs[k] in vr; } else { assert vs[k] == vc[k - |vr|]; assert vs[k] in vc; }
    }
    if |vs| == 2 {
      assert vs[0] in vr && vs[1] in vc;
    }
  }

  /** Every captured square is in the row or the column of the square just
      moved to, row captures come first, and at most one per line. */
  lemma CaptureLocality(b: Board, last: Pos, mover: Player)
    ensures var s := Captures(b, last, mover);
            && |s.captured| <= 2
            && (forall k :: 0 <= k < |s.captured| ==> s.captured[k].r == last.r || s.captured[k].c == last.c)
            && (|s.captured| == 2 ==> s.captured[0].r == last.r && s.captured[1].c == last.c)
  {
    CapturesRule(b, last, mover);
    var row, col := RowLine(last.r), ColLine(last.c);
    var vr := Victims(Read(b, row), row, last, mover);
    var vc := Victims(Read(Without(b, vr), col), col, last, mover);
    VictimsOfRow(Read(b, row), last.r, last, mover);
    VictimsOfColumn(Read(Without(b, vr), col), last.c, last, mover);
    RowThenColumn(vr, vc, last);
  }

  /** A window containing an empty square matches neither pattern. */
  lemma NoVictimsAroundEmpty(cells: seq<Cell>, line: seq<Pos>, last: Pos, mover: Player)
    requires |cells| == BoardSize && |line| == BoardSize
    requires forall k :: 0 <= k < BoardSize && line[k] == last ==> cells[k] == Empty
    ensures Victims(cells, line, last, mover) == []
  {
  }

  /** A square that is empty when the scan starts cannot be in any matching
      window, so nothing is captured and the board is returned unchanged. */
  lemma NoCaptureAroundEmptySquare(b: Board, last: Pos, mover: Player)
    requires At(b, last) == Empty
    ensures Captures(b, last, mover) == Scan(b, [])
  {
    CapturesRule(b, last, mover);
    var row, col := RowLine(last.r), ColLine(last.c);
    NoVictimsAroundEmpty(Read(b, row), row, last, mover);
    assert Without(b, []) == b;
    NoVictimsAroundEmpty(Read(b, col), col, last, mover);
  }

  // ---------------------------------------------------------------------------
  // Frame and counts
  // ---------------------------------------------------------------------------

  /** `s` is `b0` with exactly the enemy pieces listed in `s.captured` removed,
      each listed once, and the piece counts agree. */
  ghost predicate Tracks(b0: Board, s: Scan, mover: Player) {
    var opp := Piece(Opponent(mover));
    && Distinct(s.captured)
    && (forall q :: q in s.captured ==> At(b0, q) == opp && At(s.board, q) == Empty)
    && (forall q :: q !in s.captured ==> At(s.board, q) == At(b0, q))
    && Count(s.board, mover) == Count(b0, mover)
    && Count(s.board, Opponent(mover)) + |s.captured| == Count(b0, Opponent(mover))
  }

  lemma ClearKeepsTrack(b0: Board, s: Scan, v: Pos, mover: Player)
    requires Tracks(b0, s, mover) && At(s.board, v) == Piece(Opponent(mover))
    ensures Tracks(b0, Scan(Set(s.board, v, Empty), s.captured + [v]), mover)
  {
    CountAfterSet(s.board, v, Empty, mover);
    CountAfterSet(s.board, v, Empty, Opponent(mover));
  }

  lemma WindowKeepsTrack(b0: Board, s: Scan, view: seq<Cell>, line: seq<Pos>, i: nat, last: Pos, mover: Player)
    requires |view| == BoardSize && |line| == BoardSize && i + 2 < BoardSize
    requires Tracks(b0, s, mover)
    ensures Tracks(b0, Window(s, view, line, i, last, mover), mover)
  {
    var me, opp := Piece(mover), Piece(Opponent(mover));
    var p1, p2, p3 := view[i], view[i + 1], view[i + 2];
    var s1 := s;
    if p1 == me && p2 == me && p3 == opp && Involves(line, i, last) && At(s.board, line[i + 2]) == opp {
      ClearKeepsTrack(b0, s, line[i + 2], mover);
      s1 := Scan(Set(s.board, line[i + 2], Empty), s.captured + [line[i + 2]]);
    }
    if p1 == opp && p2 == me && p3 == me && Involves(line, i, last) && At(s1.board, line[i]) == opp {
      ClearKeepsTrack(b0, s1, line[i], mover);
    }
  }

  /** `checkLine` keeps the tracking of what has been taken so far. */
  lemma LineKeepsTrack(b0: Board, s: Scan, line: seq<Pos>, snapshot: seq<Cell>, aliased: bool,
                       last: Pos, mover: Player)
    requires |line| == BoardSize && |snapshot| == BoardSize
    requires Tracks(b0, s, mover)
    ensures Tracks(b0, CheckLine(s, line, snapshot, aliased, last, mover), mover)
  {
    if !Full(snapshot) {
      var t0 := Window(s, View(s.board, line, snapshot, aliased), line, 0, last, mover);
      WindowKeepsTrack(b0, s, View(s.board, line, snapshot, aliased), line, 0, last, mover);
      assert Windows(s, line, snapshot, aliased, last, mover, 1) == t0;
      WindowKeepsTrack(b0, t0, View(t0.board, line, snapshot, aliased), line, 1, last, mover);
    }
  }

  /** `processCaptures` only clears squares that held an enemy piece, lists each
      of them exactly once, and changes nothing else: the mover keeps every
      piece and the enemy loses exactly as many as are listed. */
  lemma CaptureFrame(b: Board, last: Pos, mover: Player)
    ensures var s := Captures(b, last, mover);
            var opp := Piece(Opponent(mover));
            && Distinct(s.captured)
            && (forall q :: q in s.captured ==> At(b, q) == opp && At(s.board, q) == Empty)
            && (forall q :: q !in s.captured ==> At(s.board, q) == At(b, q))
            && Count(s.board, mover) == Count(b, mover)
            && Count(s.board, Opponent(mover)) == Count(b, Opponent(mover)) - |s.captured|
  {
    var row, col := RowLine(last.r), ColLine(last.c);
    var s0 := Scan(b, []);
    assert Tracks(b, s0, mover);
    LineKeepsTrack(b, s0, row, Read(b, row), true, last, mover);
    var afterRow := CheckLine(s0, row, Read(b, row), true, last, mover);
    LineKeepsTrack(b, afterRow, col, Read(afterRow.board, col), false, last, mover);
  }
}
