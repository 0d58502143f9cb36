/** The bot's entry point and its three tiers: a random legal move (easy),
    the greedy capture-seeking move (medium) and the root of the minimax
    search (hard). */
module Bot {
  import opened Types
  import opened GameLogic
  import opened CaptureRules
  import opened Ai

  // ---------------------------------------------------------------------------
  // Medium: greedy on captures, ties broken by coin flips
  // ---------------------------------------------------------------------------

  /** The greedy loop of `getMediumMove` over a list of scores: the first
      score always beats minus infinity; later a higher score wins, and an
      equal one wins when its coin comes up heads. */
  function GreedyPick(scores: seq<int>, heads: nat -> bool): (k: nat)
    requires scores != []
    ensures k < |scores|
  {
    if |scores| == 1 then 0
    else
      var k := GreedyPick(scores[..|scores| - 1], heads);
      var i := |scores| - 1;
      if scores[i] > scores[k] || (scores[i] == scores[k] && heads(i)) then i else k
  }

  /** The pick has the highest score. */
  lemma {:induction false} GreedyPickIsMax(scores: seq<int>, heads: nat -> bool)
    requires scores != []
    ensures forall j :: 0 <= j < |scores| ==> scores[j] <= scores[GreedyPick(scores, heads)]
  {
    if |scores| > 1 {
      GreedyPickIsMax(scores[..|scores| - 1], heads);
    }
  }

  /** When every score ties, the pick is the last position whose coin came up
      heads, or the first position when none did: the scores play no part. */
  lemma {:induction false} GreedyPickOnTies(scores: seq<int>, heads: nat -> bool)
    requires scores != []
    requires forall j :: 0 <= j < |scores| ==> scores[j] == scores[0]
    ensures var k := GreedyPick(scores, heads);
            && (k == 0 || heads(k))
            && (forall j :: k < j < |scores| ==> !heads(j))
  {
    if |scores| > 1 {
      GreedyPickOnTies(scores[..|scores| - 1], heads);
    }
  }

  /** One more score: the loop's update of `maxScore` and `bestMove`. */
  lemma GreedyStep(scores: seq<int>, heads: nat -> bool, i: nat)
    requires 0 < i < |scores|
    ensures var k := GreedyPick(scores[..i], heads);
            GreedyPick(scores[..i + 1], heads)
              == if Lt(Fin(scores[k]), Fin(scores[i])) || (scores[i] == scores[k] && heads(i)) then i else k
  {
    assert scores[..i + 1][..i] == scores[..i];
  }

  /** The board a medium-tier score is taken on: as written, the board before
      the move (`played` false); as intended, the board after it. */
  function ScoringBoard(b: Board, m: Move, p: Player, played: bool): Board {
    if played then Set(Set(b, m.from, Empty), m.to, Piece(p)) else b
  }

  /** Ten points per piece `processCaptures` takes around the destination. */
  function MediumScore(b: Board, m: Move, p: Player, played: bool): nat {
    10 * |Captures(ScoringBoard(b, m, p, played), m.to, p).captured|
  }

  /** The scores of `ms`, in order. */
  function MediumScores(b: Board, ms: seq<Move>, p: Player, played: bool): (scores: seq<int>)
    ensures |scores| == |ms|
  {
    if ms == [] then [] else MediumScores(b, ms[..|ms| - 1], p, played) + [MediumScore(b, ms[|ms| - 1], p, played)]
  }

  lemma {:induction false} MediumScoresAt(b: Board, ms: seq<Move>, p: Player, played: bool, i: nat)
    requires i < |ms|
    ensures MediumScores(b, ms, p, played)[i] == MediumScore(b, ms[i], p, played)
  {
    if i < |ms| - 1 {
      MediumScoresAt(b, ms[..|ms| - 1], p, played, i);
    }
  }

  /** As written, every legal move scores zero: its destination is still
      empty, and no window through an empty square matches. */
  lemma MediumScoresAsWrittenAreZero(b: Board, p: Player, ms: seq<Move>)
    requires forall m :: m in ms ==> m in AllMoves(b, p)
    ensures forall i :: 0 <= i < |ms| ==> MediumScores(b, ms, p, false)[i] == 0
  {
    AllMovesSpec(b, p);
    forall i | 0 <= i < |ms|
      ensures MediumScores(b, ms, p, false)[i] == 0
    {
      assert ms[i] in ms;
      MediumScoresAt(b, ms, p, false, i);
      NoCaptureAroundEmptySquare(b, ms[i].to, p);
    }
  }

  /** So, as written, the medium tier's pick depends on the coins alone. */
  lemma MediumAsWrittenIgnoresCaptures(b: Board, p: Player, ms: seq<Move>, heads: nat -> bool)
    requires ms != [] && forall m :: m in ms ==> m in AllMoves(b, p)
    ensures var k := GreedyPick(MediumScores(b, ms, p, false), heads);
            && (k == 0 || heads(k))
            && (forall j :: k < j < |ms| ==> !heads(j))
  {
    MediumScoresAsWrittenAreZero(b, p, ms);
    GreedyPickOnTies(MediumScores(b, ms, p, false), heads);
  }

  /** A red piece one step below the gap between a red and a blue piece. */
  const CaptureBoard: Board :=
    [[Piece(Red), Empty, Piece(Blue), Empty],
     [Empty, Piece(Red), Empty, Empty],
     EmptyRow,
     [Empty, Empty, Empty, Piece(Blue)]]

  const QuietMove := Move(Pos(0, 0), Pos(1, 0))
  const CaptureMove := Move(Pos(1, 1), Pos(0, 1))

  lemma CaptureBoardMoves()
    ensures QuietMove in AllMoves(CaptureBoard, Red) && CaptureMove in AllMoves(CaptureBoard, Red)
  {
    AllMovesSpec(CaptureBoard, Red);
    assert Adjacent(QuietMove.from, QuietMove.to) && Adjacent(CaptureMove.from, CaptureMove.to);
  }

  lemma QuietMoveScoresZero()
    ensures MediumScore(CaptureBoard, QuietMove, Red, true) == 0
  {
    var q := Set(Set(CaptureBoard, QuietMove.from, Empty), QuietMove.to, Piece(Red));
    CapturesRule(q, QuietMove.to, Red);
    NoVictimsInQuietLines(q);
  }

  lemma CaptureMoveScoresTen()
    ensures MediumScore(CaptureBoard, CaptureMove, Red, true) == 10
  {
    var c := Set(Set(CaptureBoard, CaptureMove.from, Empty), CaptureMove.to, Piece(Red));
    CapturesRule(c, CaptureMove.to, Red);
    CaptureInClosedGap(c);
  }

  /** On `CaptureBoard`, with no coin coming up heads, the medium tier as
      written plays the first move, which captures nothing, although closing
      the gap with the other red piece captures the blue one. */
  lemma MediumAsWrittenMissesCapture()
    ensures var ms := [QuietMove, CaptureMove];
            && QuietMove in AllMoves(CaptureBoard, Red) && CaptureMove in AllMoves(CaptureBoard, Red)
            && ms[GreedyPick(MediumScores(CaptureBoard, ms, Red, false), (i: nat) => false)] == QuietMove
            && MediumScore(CaptureBoard, QuietMove, Red, true) == 0
            && MediumScore(CaptureBoard, CaptureMove, Red, true) == 10
  {
    var ms := [QuietMove, CaptureMove];
    CaptureBoardMoves();
    MediumAsWrittenIgnoresCaptures(CaptureBoard, Red, ms, (i: nat) => false);
    QuietMoveScoresZero();
    CaptureMoveScoresTen();
  }

  /** After the quiet move, neither row 1 nor column 0 has a flanked piece. */
  lemma NoVictimsInQuietLines(q: Board)
    requires q == Set(Set(CaptureBoard, Pos(0, 0), Empty), Pos(1, 0), Piece(Red))
    ensures Victims(Read(q, RowLine(1)), RowLine(1), Pos(1, 0), Red) == []
    ensures Victims(Read(q, ColLine(0)), ColLine(0), Pos(1, 0), Red) == []
  {
    assert Read(q, RowLine(1)) == [Piece(Red), Piece(Red), Empty, Empty];
    assert Read(q, ColLine(0)) == [Empty, Piece(Red), Empty, Empty];
  }

  /** After closing the gap, row 0 reads red, red, blue, empty: the blue piece
      is taken; column 1 has nothing to take. */
  lemma CaptureInClosedGap(c: Board)
    requires c == Set(Set(CaptureBoard, Pos(1, 1), Empty), Pos(0, 1), Piece(Red))
    ensures Victims(Read(c, RowLine(0)), RowLine(0), Pos(0, 1), Red) == [Pos(0, 2)]
    ensures Victims(Read(Without(c, [Pos(0, 2)]), ColLine(1)), ColLine(1), Pos(0, 1), Red) == []
  {
    assert Read(c, RowLine(0)) == [Piece(Red), Piece(Red), Piece(Blue), Empty];
    assert Read(Without(c, [Pos(0, 2)]), ColLine(1)) == [Piece(Red), Empty, Empty, Empty];
  }

  /** `getMediumMove`: the first move, then every later move that scores
      higher, or as high with its coin showing heads. `played` says which
      board the scores are taken on; the tier as written passes `false`. */
  method GetMediumMove(board: Board, player: Player, allMoves: seq<Move>, heads: nat -> bool, played: bool)
    returns (bestMove: Move)
    requires allMoves != []
    ensures bestMove == allMoves[GreedyPick(MediumScores(board, allMoves, player, played), heads)]
  {
    ghost var scores := MediumScores(board, allMoves, player, played);
    ghost var k := 0;
    bestMove := allMoves[0];
    var maxScore: Score := NegInf;
    for i := 0 to |allMoves|
      invariant k < |allMoves| && bestMove == allMoves[k]
      invariant i == 0 ==> maxScore == NegInf && k == 0
      invariant i > 0 ==> k == GreedyPick(scores[..i], heads) && maxScore == Fin(scores[k])
    {
      var move := allMoves[i];
      var score := ScoreMove(board, allMoves, i, player, played);
      if i > 0 {
        GreedyStep(scores, heads, i);
      }
      if Lt(maxScore, Fin(score)) {
        maxScore := Fin(score);
        bestMove := move;
        k := i;
      } else if Fin(score) == maxScore && heads(i) {
        bestMove := move;
        k := i;
      }
    }
    assert scores[..|allMoves|] == scores;
  }

  /** The score of move `i`: `processCaptures` at its destination, on the
      board before the move or, when `played`, after it. */
  method ScoreMove(board: Board, allMoves: seq<Move>, i: nat, player: Player, played: bool) returns (score: int)
    requires i < |allMoves|
    ensures score == MediumScores(board, allMoves, player, played)[i]
  {
    var move := allMoves[i];
    var scoring := board;
    if played {
      scoring := Set(scoring, move.from, Empty);
      scoring := Set(scoring, move.to, Piece(player));
    }
    var newBoard, captured := ProcessCaptures(scoring, move.to, player);
    score := |captured| * 10;
    MediumScoresAt(board, allMoves, player, played, i);
  }

  /** Scored on the board after each move, the medium tier plays a legal
      move that captures at least as many pieces as any other legal move. */
  lemma MediumMoveCapturesMost(b: Board, p: Player, heads: nat -> bool)
    requires AllMoves(b, p) != []
    ensures var ms := AllMoves(b, p);
            var k := GreedyPick(MediumScores(b, ms, p, true), heads);
            forall m :: m in ms ==> MediumScore(b, m, p, true) <= MediumScore(b, ms[k], p, true)
  {
    var ms := AllMoves(b, p);
    var k := GreedyPick(MediumScores(b, ms, p, true), heads);
    GreedyPickIsMax(MediumScores(b, ms, p, true), heads);
    MediumScoresAt(b, ms, p, true, k);
    forall m | m in ms
      ensures MediumScore(b, m, p, true) <= MediumScore(b, ms[k], p, true)
    {
      var j :| 0 <= j < |ms| && ms[j] == m;
      MediumScoresAt(b, ms, p, true, j);
    }
  }

  // ---------------------------------------------------------------------------
  // Hard: the root of the search
  // ---------------------------------------------------------------------------

  /** The root loop of `getBestMove` over the children's values: the first
      value strictly above everything before it, starting from minus infinity,
      and the first position when none is. */
  function BestIndex(s: seq<Score>): (k: nat)
    requires s != []
    ensures k < |s|
  {
    if |s| == 1 then 0
    else
      var k := BestIndex(s[..|s| - 1]);
      if Lt(s[k], s[|s| - 1]) then |s| - 1 else k
  }

  /** The kept value is the largest, and strictly larger than every value
      before it: the first of the best. */
  lemma {:induction false} BestIndexIsFirstMax(s: seq<Score>)
    requires s != []
    ensures forall j :: 0 <= j < |s| ==> Le(s[j], s[BestIndex(s)])
    ensures forall j :: 0 <= j < BestIndex(s) ==> Lt(s[j], s[BestIndex(s)])
  {
    if |s| > 1 {
      BestIndexIsFirstMax(s[..|s| - 1]);
    }
  }

  /** One more value: the root loop's strict improvement test. */
  lemma BestStep(s: seq<Score>, i: nat)
    requires 0 < i < |s|
    ensures var k := BestIndex(s[..i]);
            BestIndex(s[..i + 1]) == if Lt(s[k], s[i]) then i else k
  {
    assert s[..i + 1][..i] == s[..i];
  }

  /** The exact minimax value of each root move, searched `depth - 1` plies
      deeper with the opponent to move. */
  function RootScores(b: Board, player: Player, depth: nat): (s: seq<Score>)
    requires depth >= 1
    ensures |s| == |AllMoves(b, player)|
  {
    ChildValues(b, AllMoves(b, player), player, depth - 1, true, player, Opponent(player))
  }

  /** `getBestMove`: each move's child searched with the full window, the
      first strictly best one kept, `allMoves[0]` when none beats minus
      infinity, and nothing when there are no moves. */
  method GetBestMove(board: Board, player: Player, depth: nat) returns (best: Option<Move>)
    requires depth >= 1
    ensures AllMoves(board, player) == [] ==> best == None
    ensures AllMoves(board, player) != [] ==>
              best == Some(AllMoves(board, player)[BestIndex(RootScores(board, player, depth))])
  {
    var bestScore: Score := NegInf;
    var bestMove: Option<Move> := None;
    var allMoves := GetAllValidMoves(board, player);
    var opponent := Opponent(player);
    ghost var s := RootScores(board, player, depth);
    for i := 0 to |allMoves|
      invariant i == 0 ==> bestScore == NegInf && bestMove == None
      invariant i > 0 ==> var k := BestIndex(s[..i]);
                          && bestScore == s[k]
                          && (bestMove == None ==> k == 0 && bestScore == NegInf)
                          && (bestMove != None ==> bestMove == Some(allMoves[k]))
    {
      var score := SearchChild(board, allMoves, i, player, depth - 1, true, NegInf, PosInf, player, opponent);
      FullWindowIsExact(score, s[i]);
      if i > 0 {
        BestStep(s, i);
      }
      if Lt(bestScore, score) {
        bestScore := score;
        bestMove := Some(allMoves[i]);
      }
    }
    if |allMoves| > 0 {
      assert s[..|allMoves|] == s;
    }
    if bestMove == None && |allMoves| > 0 {
      bestMove := Some(allMoves[0]);
    }
    best := bestMove;
  }

  lemma LeAntisymmetric(a: Score, b: Score)
    requires Le(a, b) && Le(b, a)
    ensures a == b
  {
  }

  /** The hard tier plays a move whose value is the minimax value of the
      position, whenever the game is not already decided. */
  lemma BestMoveAchievesMinimax(b: Board, player: Player, depth: nat)
    requires depth >= 1 && AllMoves(b, player) != []
    requires Count(b, player) >= 2 && Count(b, Opponent(player)) >= 2
    ensures var s := RootScores(b, player, depth);
            s[BestIndex(s)] == Minimax(b, depth, true, player, Opponent(player))
  {
    var s := RootScores(b, player, depth);
    var k := BestIndex(s);
    BestIndexIsFirstMax(s);
    ExtremeIsExtreme(s, true);
    var j :| 0 <= j < |s| && s[j] == Extreme(s, true);
    LeAntisymmetric(s[k], Extreme(s, true));
  }

  // ---------------------------------------------------------------------------
  // The entry point
  // ---------------------------------------------------------------------------

  /** The move `getBotMove` makes: nothing when the bot cannot move; a move
      at the random index `pick` (easy); the greedy pick with coin flips
      `heads`, scored as written on the board before the move (medium); the
      root of the depth-4 search (hard). Whatever the tier, it is a legal move of the bot. */
  function BotChoice(b: Board, bot: Player, difficulty: Difficulty, pick: nat, heads: nat -> bool): (r: Option<Move>)
    ensures r == None <==> AllMoves(b, bot) == []
    ensures r != None ==> r.value in AllMoves(b, bot)
  {
    var ms := AllMoves(b, bot);
    if ms == [] then None
    else match difficulty
      case Easy => Some(ms[pick % |ms|])
      case Medium => Some(ms[GreedyPick(MediumScores(b, ms, bot, false), heads)])
      case Hard => Some(ms[BestIndex(RootScores(b, bot, 4))])
  }

  /** The bot only ever moves one of its own pieces one square onto an empty
      square. */
  lemma BotChoiceIsLegal(b: Board, bot: Player, difficulty: Difficulty, pick: nat, heads: nat -> bool)
    ensures var r := BotChoice(b, bot, difficulty, pick, heads);
            r != None ==> At(b, r.value.from) == Piece(bot) && Adjacent(r.value.from, r.value.to) && At(b, r.value.to) == Empty
  {
    AllMovesSpec(b, bot);
  }

  /** As written, the medium tier's move is the last legal move whose coin
      shows heads, or the first legal move when none does: captures play no
      part in it. */
  lemma MediumChoiceIsCoinsOnly(b: Board, bot: Player, pick: nat, heads: nat -> bool)
    requires AllMoves(b, bot) != []
    ensures var ms := AllMoves(b, bot);
            exists k :: 0 <= k < |ms| && BotChoice(b, bot, Medium, pick, heads) == Some(ms[k])
                        && (k == 0 || heads(k)) && (forall j :: k < j < |ms| ==> !heads(j))
  {
    var ms := AllMoves(b, bot);
    AllMovesSpec(b, bot);
    MediumAsWrittenIgnoresCaptures(b, bot, ms, heads);
    var k := GreedyPick(MediumScores(b, ms, bot, false), heads);
    assert BotChoice(b, bot, Medium, pick, heads) == Some(ms[k]);
  }

  /** The medium tier as evidently intended: each legal move scored on the
      board after it is played. */
  function IntendedMediumChoice(b: Board, bot: Player, heads: nat -> bool): (r: Option<Move>)
    ensures r == None <==> AllMoves(b, bot) == []
    ensures r != None ==> r.value in AllMoves(b, bot)
  {
    var ms := AllMoves(b, bot);
    if ms == [] then None else Some(ms[GreedyPick(MediumScores(b, ms, bot, true), heads)])
  }

  /** The intended medium tier takes at least as many pieces as any other
      legal move. */
  lemma MediumChoiceCapturesMost(b: Board, bot: Player, heads: nat -> bool)
    requires AllMoves(b, bot) != []
    ensures var r := IntendedMediumChoice(b, bot, heads);
            r.Some? && forall m :: m in AllMoves(b, bot) ==> MediumScore(b, m, bot, true) <= MediumScore(b, r.value, bot, true)
  {
    MediumMoveCapturesMost(b, bot, heads);
  }

  /** `getBotMove`. `pick` stands for the random index of the easy tier and
      `heads` for the medium tier's coin flips. */
  method GetBotMove(board: Board, botPlayer: Player, difficulty: Difficulty, pick: nat, heads: nat -> bool)
    returns (move: Option<Move>)
    ensures move == BotChoice(board, botPlayer, difficulty, pick, heads)
  {
    var allMoves := GetAllValidMoves(board, botPlayer);
    if |allMoves| == 0 {
      return None;
    }
    match difficulty {
      case Easy =>
        move := Some(allMoves[pick % |allMoves|]);
      case Medium =>
        var m := GetMediumMove(board, botPlayer, allMoves, heads, false);
        move := Some(m);
      case Hard =>
        move := GetBestMove(board, botPlayer, 4);
    }
  }
}
