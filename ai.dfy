/** The bot: its move generator, the board after a move, the heuristic, the
    greedy medium tier and the depth-limited minimax search with alpha-beta
    pruning of the hard tier. */
module Ai {
  import opened Types
  import opened GameLogic
  import opened CaptureRules

  // ---------------------------------------------------------------------------
  // Scores: integers extended with the two infinities the search starts from
  // ---------------------------------------------------------------------------

  datatype Score = NegInf | Fin(n: int) | PosInf

  predicate Le(a: Score, b: Score) {
    a == NegInf || b == PosInf || (a.Fin? && b.Fin? && a.n <= b.n)
  }

  predicate Lt(a: Score, b: Score) {
    !Le(b, a)
  }

  /** `Math.max`: the larger of the two. */
  function Max(a: Score, b: Score): (m: Score)
    ensures Le(a, m) && Le(b, m)
    ensures m == a || m == b
  {
    if Le(a, b) then b else a
  }

  /** `Math.min`: the smaller of the two. */
  function Min(a: Score, b: Score): (m: Score)
    ensures Le(m, a) && Le(m, b)
    ensures m == a || m == b
  {
    if Le(a, b) then a else b
  }

  // ---------------------------------------------------------------------------
  // Move generation
  // ---------------------------------------------------------------------------

  /** Squares in row-major order: index `4 * r + c`. */
  function Index(p: Pos): nat {
    4 * p.r + p.c
  }

  /** One move from `from` to each of `tos`, in order. */
  function MovesFrom(from: Pos, tos: seq<Pos>): (ms: seq<Move>)
    ensures |ms| == |tos|
  {
    if tos == [] then [] else MovesFrom(from, tos[..|tos| - 1]) + [Move(from, tos[|tos| - 1])]
  }

  lemma {:induction false} MovesFromSpec(from: Pos, tos: seq<Pos>)
    ensures forall i :: 0 <= i < |tos| ==> MovesFrom(from, tos)[i] == Move(from, tos[i])
  {
    if tos != [] {
      MovesFromSpec(from, tos[..|tos| - 1]);
    }
  }

  lemma MovesFromSnoc(from: Pos, tos: seq<Pos>, j: nat)
    requires j < |tos|
    ensures MovesFrom(from, tos[..j + 1]) == MovesFrom(from, tos[..j]) + [Move(from, tos[j])]
  {
    assert tos[..j + 1][..j] == tos[..j];
  }

  /** The moves of the piece on `from`, if it belongs to `p`. */
  function SquareMoves(b: Board, p: Player, from: Pos): seq<Move> {
    if At(b, from) == Piece(p) then MovesFrom(from, ValidMoves(b, from)) else []
  }

  /** The moves of `p`'s pieces on the first `c` squares of row `r`. */
  function RowMoves(b: Board, p: Player, r: Coord, c: nat): seq<Move>
    requires c <= BoardSize
  {
    if c == 0 then [] else RowMoves(b, p, r, c - 1) + SquareMoves(b, p, Pos(r, c - 1))
  }

  /** The moves of `p`'s pieces on the first `r` rows. */
  function RowsMoves(b: Board, p: Player, r: nat): seq<Move>
    requires r <= BoardSize
  {
    if r == 0 then [] else RowsMoves(b, p, r - 1) + RowMoves(b, p, r - 1, BoardSize)
  }

  /** Every move of side `p`: its pieces in row-major order, each with its
      destinations in the order up, down, left, right. */
  function AllMoves(b: Board, p: Player): seq<Move> {
    RowsMoves(b, p, BoardSize)
  }

  /** `getAllValidMoves`: the two loops over rows and columns, pushing one
      move per destination of each piece of `player`. */
  method GetAllValidMoves(board: Board, player: Player) returns (moves: seq<Move>)
    ensures moves == AllMoves(board, player)
  {
    moves := [];
    for r := 0 to BoardSize
      invariant moves == RowsMoves(board, player, r)
    {
      ghost var done := moves;
      for c := 0 to BoardSize
        invariant moves == done + RowMoves(board, player, r, c)
      {
        var from := Pos(r, c);
        RowMovesNext(board, player, r, c, done, moves);
        if board[r][c] == Piece(player) {
          var validTos := GetValidMoves(board, from);
          moves := PushMoves(moves, from, validTos);
        }
      }
    }
  }

  lemma RowMovesNext(b: Board, p: Player, r: Coord, c: Coord, done: seq<Move>, moves: seq<Move>)
    requires moves == done + RowMoves(b, p, r, c)
    ensures b[r][c] == Piece(p) ==> done + RowMoves(b, p, r, c + 1) == moves + MovesFrom(Pos(r, c), ValidMoves(b, Pos(r, c)))
    ensures b[r][c] != Piece(p) ==> done + RowMoves(b, p, r, c + 1) == moves
  {
    var x, y := RowMoves(b, p, r, c), SquareMoves(b, p, Pos(r, c));
    assert RowMoves(b, p, r, c + 1) == x + y;
    AppendAssoc(done, x, y);
    if b[r][c] != Piece(p) {
      assert y == [];
      assert x + y == x;
    }
  }

  /** The `forEach` of `getAllValidMoves`: one push per destination. */
  method PushMoves(moves: seq<Move>, from: Pos, validTos: seq<Pos>) returns (moves': seq<Move>)
    ensures moves' == moves + MovesFrom(from, validTos)
  {
    moves' := moves;
    for j := 0 to |validTos|
      invariant moves' == moves + MovesFrom(from, validTos[..j])
    {
      MovesFromSnoc(from, validTos, j);
      AppendAssoc(moves, MovesFrom(from, validTos[..j]), [Move(from, validTos[j])]);
      moves' := moves' + [Move(from, validTos[j])];
    }
    assert validTos[..|validTos|] == validTos;
  }

  lemma {:induction false} MovesFromMembers(from: Pos, tos: seq<Pos>)
    ensures forall m :: m in MovesFrom(from, tos) <==> m.from == from && m.to in tos
  {
    if tos != [] {
      MovesFromMembers(from, tos[..|tos| - 1]);
      assert tos == tos[..|tos| - 1] + [tos[|tos| - 1]];
    }
  }

  /** The moves of one square all start there, and are its destinations when
      it holds a piece of `p`. */
  lemma SquareMovesSpec(b: Board, p: Player, from: Pos)
    ensures forall k :: 0 <= k < |SquareMoves(b, p, from)| ==> SquareMoves(b, p, from)[k].from == from
    ensures forall m :: m in SquareMoves(b, p, from) <==>
              m.from == from && At(b, from) == Piece(p) && m.to in ValidMoves(b, from)
  {
    MovesFromMembers(from, ValidMoves(b, from));
    var y := SquareMoves(b, p, from);
    assert forall k :: 0 <= k < |y| ==> y[k] in y;
  }

  lemma {:induction false} RowMovesSpec(b: Board, p: Player, r: Coord, c: nat)
    requires c <= BoardSize
    ensures forall m :: m in RowMoves(b, p, r, c) <==>
              m.from.r == r && m.from.c < c && At(b, m.from) == Piece(p) && m.to in ValidMoves(b, m.from)
  {
    if c > 0 {
      RowMovesSpec(b, p, r, c - 1);
      var x, y := RowMoves(b, p, r, c - 1), SquareMoves(b, p, Pos(r, c - 1));
      SquareMovesSpec(b, p, Pos(r, c - 1));
      assert RowMoves(b, p, r, c) == x + y;
      forall m: Move
        ensures m in x + y <==> m.from.r == r && m.from.c < c && At(b, m.from) == Piece(p) && m.to in ValidMoves(b, m.from)
      {
        assert m in x + y <==> m in x || m in y;
      }
    }
  }

  /** Appending the moves of square `(r, c)` to moves from earlier squares of
      row `r`, listed by column, keeps them listed by column. */
  lemma AppendColumn(x: seq<Move>, y: seq<Move>, r: Coord, c: Coord)
    requires forall i :: 0 <= i < |x| ==> x[i].from.r == r && x[i].from.c < c
    requires forall i, j :: 0 <= i < j < |x| ==> x[i].from.c <= x[j].from.c
    requires forall k :: 0 <= k < |y| ==> y[k].from == Pos(r, c)
    ensures forall i :: 0 <= i < |x + y| ==> (x + y)[i].from.r == r && (x + y)[i].from.c < c + 1
    ensures forall i, j :: 0 <= i < j < |x + y| ==> (x + y)[i].from.c <= (x + y)[j].from.c
  {
    var all := x + y;
    assert forall i :: 0 <= i < |all| ==> all[i] == if i < |x| then x[i] else y[i - |x|];
  }

  lemma {:induction false} RowMovesOrder(b: Board, p: Player, r: Coord, c: nat)
    requires c <= BoardSize
    ensures forall i :: 0 <= i < |RowMoves(b, p, r, c)| ==>
              RowMoves(b, p, r, c)[i].from.r == r && RowMoves(b, p, r, c)[i].from.c < c
    ensures forall i, j :: 0 <= i < j < |RowMoves(b, p, r, c)| ==>
              RowMoves(b, p, r, c)[i].from.c <= RowMoves(b, p, r, c)[j].from.c
  {
    if c > 0 {
      RowMovesOrder(b, p, r, c - 1);
      var from := Pos(r, c - 1);
      SquareMovesSpec(b, p, from);
      AppendColumn(RowMoves(b, p, r, c - 1), SquareMoves(b, p, from), r, c - 1);
      assert RowMoves(b, p, r, c) == RowMoves(b, p, r, c - 1) + SquareMoves(b, p, from);
    }
  }

  lemma {:induction false} RowsMovesSpec(b: Board, p: Player, r: nat)
    requires r <= BoardSize
    ensures forall m :: m in RowsMoves(b, p, r) <==>
              m.from.r < r && At(b, m.from) == Piece(p) && m.to in ValidMoves(b, m.from)
  {
    if r > 0 {
      RowsMovesSpec(b, p, r - 1);
      RowMovesSpec(b, p, r - 1, BoardSize);
    }
  }

  /** Appending the moves of row `r`, listed by column, to moves from the
      rows above it, listed in row-major order, keeps row-major order. */
  lemma AppendRow(x: seq<Move>, y: seq<Move>, r: Coord)
    requires forall i :: 0 <= i < |x| ==> Index(x[i].from) < 4 * r
    requires forall i, j :: 0 <= i < j < |x| ==> Index(x[i].from) <= Index(x[j].from)
    requires forall k :: 0 <= k < |y| ==> y[k].from.r == r
    requires forall i, j :: 0 <= i < j < |y| ==> y[i].from.c <= y[j].from.c
    ensures forall i :: 0 <= i < |x + y| ==> Index((x + y)[i].from) < 4 * (r + 1)
    ensures forall i, j :: 0 <= i < j < |x + y| ==> Index((x + y)[i].from) <= Index((x + y)[j].from)
  {
    var all := x + y;
    assert forall i :: 0 <= i < |all| ==> all[i] == if i < |x| then x[i] else y[i - |x|];
  }

  lemma {:induction false} RowsMovesOrder(b: Board, p: Player, r: nat)
    requires r <= BoardSize
    ensures forall i :: 0 <= i < |RowsMoves(b, p, r)| ==> Index(RowsMoves(b, p, r)[i].from) < 4 * r
    ensures forall i, j :: 0 <= i < j < |RowsMoves(b, p, r)| ==>
              Index(RowsMoves(b, p, r)[i].from) <= Index(RowsMoves(b, p, r)[j].from)
  {
    if r > 0 {
      RowsMovesOrder(b, p, r - 1);
      RowMovesOrder(b, p, r - 1, BoardSize);
      AppendRow(RowsMoves(b, p, r - 1), RowMoves(b, p, r - 1, BoardSize), r - 1);
      assert RowsMoves(b, p, r) == RowsMoves(b, p, r - 1) + RowMoves(b, p, r - 1, BoardSize);
    }
  }

  /** A move is generated exactly when it takes a piece of `p` one square up,
      down, left or right onto an empty square. */
  lemma AllMovesSpec(b: Board, p: Player)
    ensures forall m :: m in AllMoves(b, p) <==>
              At(b, m.from) == Piece(p) && Adjacent(m.from, m.to) && At(b, m.to) == Empty
  {
    RowsMovesSpec(b, p, BoardSize);
    forall q: Pos {
      ValidMovesSpec(b, q);
    }
  }

  /** Moves are grouped by the piece that makes them, pieces in row-major order. */
  lemma AllMovesOrder(b: Board, p: Player)
    ensures forall i, j :: 0 <= i < j < |AllMoves(b, p)| ==>
              Index(AllMoves(b, p)[i].from) <= Index(AllMoves(b, p)[j].from)
  {
    RowsMovesOrder(b, p, BoardSize);
  }

  // ---------------------------------------------------------------------------
  // Simulating a move
  // ---------------------------------------------------------------------------

  /** `simulateMove`: lift the piece, drop it on the destination and apply the
      captures around the destination. */
  function Simulate(b: Board, m: Move, p: Player): Board {
    Captures(Set(Set(b, m.from, Empty), m.to, Piece(p)), m.to, p).board
  }

  method SimulateMove(board: Board, move: Move, player: Player) returns (newBoard: Board)
    ensures newBoard == Simulate(board, move, player)
  {
    var nextBoard := Set(board, move.from, Empty);
    nextBoard := Set(nextBoard, move.to, Piece(player));
    var captured;
    newBoard, captured := ProcessCaptures(nextBoard, move.to, player);
  }

  /** After a legal move the origin is empty, the destination holds the mover,
      the mover keeps all its pieces and the other side loses exactly the
      captured ones; every other square is unchanged or a captured enemy. */
  lemma SimulateSpec(b: Board, m: Move, p: Player)
    requires m in AllMoves(b, p)
    ensures var s := Simulate(b, m, p);
            var captured := Captures(Set(Set(b, m.from, Empty), m.to, Piece(p)), m.to, p).captured;
            && At(s, m.from) == Empty
            && At(s, m.to) == Piece(p)
            && Count(s, p) == Count(b, p)
            && Count(s, Opponent(p)) == Count(b, Opponent(p)) - |captured|
            && (forall q :: q != m.from && q != m.to ==>
                  At(s, q) == At(b, q) || (q in captured && At(b, q) == Piece(Opponent(p)) && At(s, q) == Empty))
  {
    AllMovesSpec(b, p);
    var b1 := Set(b, m.from, Empty);
    var b2 := Set(b1, m.to, Piece(p));
    CountAfterSet(b, m.from, Empty, p);
    CountAfterSet(b1, m.to, Piece(p), p);
    CountAfterSet(b, m.from, Empty, Opponent(p));
    CountAfterSet(b1, m.to, Piece(p), Opponent(p));
    CaptureFrame(b2, m.to, p);
  }

  // ---------------------------------------------------------------------------
  // Heuristic
  // ---------------------------------------------------------------------------

  /** `evaluateBoard`: twenty points per piece of material, one per move of mobility. */
  function Evaluate(b: Board, bot: Player, opp: Player): int {
    (Count(b, bot) - Count(b, opp)) * 20 + (|AllMoves(b, bot)| - |AllMoves(b, opp)|)
  }

  method EvaluateBoard(board: Board, botPlayer: Player, opponent: Player) returns (score: int)
    ensures score == Evaluate(board, botPlayer, opponent)
  {
    var botCount := CountPieces(board, botPlayer);
    var oppCount := CountPieces(board, opponent);
    score := (botCount as int - oppCount as int) * 20;
    var botMoves := GetAllValidMoves(board, botPlayer);
    var oppMoves := GetAllValidMoves(board, opponent);
    score := score + (|botMoves| as int - |oppMoves| as int);
  }

  /** The heuristic is zero-sum: swapping the sides negates it. */
  lemma EvaluateAntisymmetric(b: Board, bot: Player, opp: Player)
    ensures Evaluate(b, bot, opp) == -Evaluate(b, opp, bot)
    ensures bot == opp ==> Evaluate(b, bot, opp) == 0
  {
  }

  // ---------------------------------------------------------------------------
  // Minimax, the value the search computes
  // ---------------------------------------------------------------------------

  /** The side to move at a node. */
  function Mover(maximizing: bool, bot: Player, opp: Player): Player {
    if maximizing then bot else opp
  }

  /** The maximum (or minimum) of `vals`, folded from the left starting from
      minus (or plus) infinity, as the search loops fold `Math.max` (`Math.min`). */
  function Extreme(vals: seq<Score>, maximizing: bool): Score {
    if vals == [] then (if maximizing then NegInf else PosInf)
    else
      var prev := Extreme(vals[..|vals| - 1], maximizing);
      if maximizing then Max(prev, vals[|vals| - 1]) else Min(prev, vals[|vals| - 1])
  }

  /** The value of a position with `depth` plies left: a win for the bot
      (the opponent has fewer than two pieces) scores `1000 + depth`, a loss
      `-1000 - depth`, the horizon scores the heuristic, and otherwise the
      best child value for the side to move. */
  function Minimax(b: Board, depth: nat, maximizing: bool, bot: Player, opp: Player): Score
    decreases depth, 1
  {
    if Count(b, opp) < 2 then Fin(1000 + depth)
    else if Count(b, bot) < 2 then Fin(-1000 - depth)
    else if depth == 0 then Fin(Evaluate(b, bot, opp))
    else
      var mover := Mover(maximizing, bot, opp);
      Extreme(ChildValues(b, AllMoves(b, mover), mover, depth - 1, maximizing, bot, opp), maximizing)
  }

  /** The values of the children reached by `moves`, one ply deeper, in order. */
  function ChildValues(b: Board, moves: seq<Move>, mover: Player, childDepth: nat, maximizing: bool,
                       bot: Player, opp: Player): (vals: seq<Score>)
    ensures |vals| == |moves|
    decreases childDepth, 2, |moves|
  {
    if moves == [] then []
    else
      ChildValues(b, moves[..|moves| - 1], mover, childDepth, maximizing, bot, opp)
      + [Minimax(Simulate(b, moves[|moves| - 1], mover), childDepth, !maximizing, bot, opp)]
  }

  lemma {:induction false} ChildValuesAt(b: Board, moves: seq<Move>, mover: Player, childDepth: nat, maximizing: bool,
                                         bot: Player, opp: Player, i: nat)
    requires i < |moves|
    ensures ChildValues(b, moves, mover, childDepth, maximizing, bot, opp)[i]
         == Minimax(Simulate(b, moves[i], mover), childDepth, !maximizing, bot, opp)
  {
    if i < |moves| - 1 {
      ChildValuesAt(b, moves[..|moves| - 1], mover, childDepth, maximizing, bot, opp, i);
    }
  }

  lemma ExtremeStep(vals: seq<Score>, i: nat, maximizing: bool)
    requires i < |vals|
    ensures Extreme(vals[..i + 1], maximizing)
              == if maximizing then Max(Extreme(vals[..i], maximizing), vals[i])
                 else Min(Extreme(vals[..i], maximizing), vals[i])
  {
    assert vals[..i + 1][..i] == vals[..i];
  }

  /** Looking at more values can only raise a maximum and lower a minimum. */
  lemma {:induction false} ExtremePrefix(vals: seq<Score>, i: nat, maximizing: bool)
    requires i <= |vals|
    ensures if maximizing then Le(Extreme(vals[..i], maximizing), Extreme(vals, maximizing))
            else Le(Extreme(vals, maximizing), Extreme(vals[..i], maximizing))
    decreases |vals| - i
  {
    if i == |vals| {
      assert vals[..i] == vals;
    } else {
      ExtremeStep(vals, i, maximizing);
      ExtremePrefix(vals, i + 1, maximizing);
    }
  }

  /** The fold is the extreme value: no value beats it, and it is one of the
      values unless there are none. */
  lemma {:induction false} ExtremeIsExtreme(vals: seq<Score>, maximizing: bool)
    ensures forall k :: 0 <= k < |vals| ==>
              if maximizing then Le(vals[k], Extreme(vals, maximizing)) else Le(Extreme(vals, maximizing), vals[k])
    ensures vals == [] ==> Extreme(vals, maximizing) == if maximizing then NegInf else PosInf
    ensures vals != [] ==> Extreme(vals, maximizing) in vals
  {
    if vals != [] {
      var init := vals[..|vals| - 1];
      ExtremeIsExtreme(init, maximizing);
      assert forall k :: 0 <= k < |init| ==> init[k] == vals[k];
      if init != [] {
        assert Extreme(init, maximizing) in vals;
      }
    }
  }

  // ---------------------------------------------------------------------------
  // Alpha-beta search
  // ---------------------------------------------------------------------------

  /** What a fail-soft alpha-beta search promises about the value `v` it
      returns for the window `(alpha, beta)`, given the exact value: at or below
      `alpha` it is an upper bound, at or above `beta` a lower bound, and
      strictly inside the window it is exact. */
  predicate FailSoft(v: Score, alpha: Score, beta: Score, exact: Score) {
    && (Le(v, alpha) ==> Le(exact, v))
    && (Le(beta, v) ==> Le(v, exact))
    && (Lt(alpha, v) && Lt(v, beta) ==> v == exact)
  }

  /** With the window `(-Infinity, Infinity)` the search returns the exact value. */
  lemma FullWindowIsExact(v: Score, exact: Score)
    requires FailSoft(v, NegInf, PosInf, exact)
    ensures v == exact
  {
  }

  /** One child of a maximizing node keeps the loop's account: `maxEval` bounds
      the exact maximum so far from above while the window is open, and from
      below once it rose above `alpha`. */
  lemma MaxNodeStep(alpha: Score, beta: Score, maxEval: Score, exactSoFar: Score, ev: Score, exact: Score)
    requires Lt(Max(alpha, maxEval), beta)
    requires Le(exactSoFar, maxEval)
    requires Lt(alpha, maxEval) ==> Le(maxEval, exactSoFar)
    requires FailSoft(ev, Max(alpha, maxEval), beta, exact)
    ensures Max(Max(alpha, maxEval), ev) == Max(alpha, Max(maxEval, ev))
    ensures Lt(Max(alpha, Max(maxEval, ev)), beta) ==> Le(Max(exactSoFar, exact), Max(maxEval, ev))
    ensures Lt(alpha, Max(maxEval, ev)) ==> Le(Max(maxEval, ev), Max(exactSoFar, exact))
  {
  }

  /** The mirror image for a minimizing node. */
  lemma MinNodeStep(alpha: Score, beta: Score, minEval: Score, exactSoFar: Score, ev: Score, exact: Score)
    requires Lt(alpha, Min(beta, minEval))
    requires Le(minEval, exactSoFar)
    requires Lt(minEval, beta) ==> Le(exactSoFar, minEval)
    requires FailSoft(ev, alpha, Min(beta, minEval), exact)
    ensures Min(Min(beta, minEval), ev) == Min(beta, Min(minEval, ev))
    ensures Lt(alpha, Min(beta, Min(minEval, ev))) ==> Le(Min(minEval, ev), Min(exactSoFar, exact))
    ensures Lt(Min(minEval, ev), beta) ==> Le(Min(exactSoFar, exact), Min(minEval, ev))
  {
  }

  /** When a maximizing node's loop ends, having seen every move (`done`) or
      closed the window, its account gives the fail-soft promise. */
  lemma MaxNodeExit(alpha: Score, beta: Score, maxEval: Score, exactSoFar: Score, exact: Score, done: bool)
    requires Lt(alpha, beta)
    requires Lt(Max(alpha, maxEval), beta) ==> Le(exactSoFar, maxEval)
    requires Lt(alpha, maxEval) ==> Le(maxEval, exactSoFar)
    requires Le(exactSoFar, exact) && (done ==> exactSoFar == exact)
    requires done || !Lt(Max(alpha, maxEval), beta)
    ensures FailSoft(maxEval, alpha, beta, exact)
  {
  }

  /** The mirror image for a minimizing node. */
  lemma MinNodeExit(alpha: Score, beta: Score, minEval: Score, exactSoFar: Score, exact: Score, done: bool)
    requires Lt(alpha, beta)
    requires Lt(alpha, Min(beta, minEval)) ==> Le(minEval, exactSoFar)
    requires Lt(minEval, beta) ==> Le(exactSoFar, minEval)
    requires Le(exact, exactSoFar) && (done ==> exactSoFar == exact)
    requires done || !Lt(alpha, Min(beta, minEval))
    ensures FailSoft(minEval, alpha, beta, exact)
  {
  }

  /** `minimax`: counts first (a win, a loss, the horizon), then the moves of
      the side to move, each child searched with the current window, the
      window narrowed after each child and the loop left once it is empty. */
  method AlphaBeta(board: Board, depth: nat, isMaximizing: bool, alpha: Score, beta: Score,
                   botPlayer: Player, opponent: Player)
    returns (v: Score)
    requires Lt(alpha, beta)
    ensures FailSoft(v, alpha, beta, Minimax(board, depth, isMaximizing, botPlayer, opponent))
    decreases depth, 1
  {
    var botCount := CountPieces(board, botPlayer);
    var oppCount := CountPieces(board, opponent);
    if oppCount < 2 {
      return Fin(1000 + depth);
    }
    if botCount < 2 {
      return Fin(-1000 - depth);
    }
    if depth == 0 {
      var score := EvaluateBoard(board, botPlayer, opponent);
      return Fin(score);
    }
    var currentPlayer := if isMaximizing then botPlayer else opponent;
    var moves := GetAllValidMoves(board, currentPlayer);
    if isMaximizing {
      v := MaxNode(board, moves, depth, alpha, beta, botPlayer, opponent);
    } else {
      v := MinNode(board, moves, depth, alpha, beta, botPlayer, opponent);
    }
  }

  /** One iteration's child: `simulateMove` with move `i`, then the recursive
      call one ply deeper with the other side to move. */
  method SearchChild(board: Board, moves: seq<Move>, i: nat, mover: Player, childDepth: nat, maximizing: bool,
                     alpha: Score, beta: Score, botPlayer: Player, opponent: Player)
    returns (ev: Score)
    requires i < |moves| && Lt(alpha, beta)
    ensures FailSoft(ev, alpha, beta, ChildValues(board, moves, mover, childDepth, maximizing, botPlayer, opponent)[i])
    decreases childDepth, 2
  {
    var nextBoard := SimulateMove(board, moves[i], mover);
    ev := AlphaBeta(nextBoard, childDepth, !maximizing, alpha, beta, botPlayer, opponent);
    ChildValuesAt(board, moves, mover, childDepth, maximizing, botPlayer, opponent, i);
  }

  /** The maximizing branch of `minimax`: the bot moves, `alpha` rises. */
  method MaxNode(board: Board, moves: seq<Move>, depth: nat, alpha: Score, beta: Score,
                 botPlayer: Player, opponent: Player)
    returns (maxEval: Score)
    requires depth > 0 && Lt(alpha, beta)
    ensures FailSoft(maxEval, alpha, beta, Extreme(ChildValues(board, moves, botPlayer, depth - 1, true, botPlayer, opponent), true))
    decreases depth, 0
  {
    ghost var vals := ChildValues(board, moves, botPlayer, depth - 1, true, botPlayer, opponent);
    maxEval := NegInf;
    var alpha' := alpha;
    var i := 0;
    while i < |moves| && Lt(alpha', beta)
      invariant i <= |moves|
      invariant alpha' == Max(alpha, maxEval)
      invariant Lt(alpha', beta) ==> Le(Extreme(vals[..i], true), maxEval)
      invariant Lt(alpha, maxEval) ==> Le(maxEval, Extreme(vals[..i], true))
      decreases |moves| - i
    {
      var ev := SearchChild(board, moves, i, botPlayer, depth - 1, true, alpha', beta, botPlayer, opponent);
      ExtremeStep(vals, i, true);
      MaxNodeStep(alpha, beta, maxEval, Extreme(vals[..i], true), ev, vals[i]);
      maxEval := Max(maxEval, ev);
      alpha' := Max(alpha', ev);
      i := i + 1;
    }
    ExtremePrefix(vals, i, true);
    assert i == |moves| ==> vals[..i] == vals;
    MaxNodeExit(alpha, beta, maxEval, Extreme(vals[..i], true), Extreme(vals, true), i == |moves|);
  }

  /** The minimizing branch of `minimax`: the opponent moves, `beta` falls. */
  method MinNode(board: Board, moves: seq<Move>, depth: nat, alpha: Score, beta: Score,
                 botPlayer: Player, opponent: Player)
    returns (minEval: Score)
    requires depth > 0 && Lt(alpha, beta)
    ensures FailSoft(minEval, alpha, beta, Extreme(ChildValues(board, moves, opponent, depth - 1, false, botPlayer, opponent), false))
    decreases depth, 0
  {
    ghost var vals := ChildValues(board, moves, opponent, depth - 1, false, botPlayer, opponent);
    minEval := PosInf;
    var beta' := beta;
    var i := 0;
    while i < |moves| && Lt(alpha, beta')
      invariant i <= |moves|
      invariant beta' == Min(beta, minEval)
      invariant Lt(alpha, beta') ==> Le(minEval, Extreme(vals[..i], false))
      invariant Lt(minEval, beta) ==> Le(Extreme(vals[..i], false), minEval)
      decreases |moves| - i
    {
      var ev := SearchChild(board, moves, i, opponent, depth - 1, false, alpha, beta', botPlayer, opponent);
      ExtremeStep(vals, i, false);
      MinNodeStep(alpha, beta, minEval, Extreme(vals[..i], false), ev, vals[i]);
      minEval := Min(minEval, ev);
      beta' := Min(beta', ev);
      i := i + 1;
    }
    ExtremePrefix(vals, i, false);
    assert i == |moves| ==> vals[..i] == vals;
    MinNodeExit(alpha, beta, minEval, Extreme(vals[..i], false), Extreme(vals, false), i == |moves|);
  }
}
