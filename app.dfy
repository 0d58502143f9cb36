/** The state logic of the game screen: the board, whose turn it is, the
    winner, the selected piece and its destinations, the last move and the
    five most recent log entries, driven by clicks, the bot and network
    messages. */
module App {
  import opened Types
  import opened GameLogic
  import opened CaptureRules
  import opened Ai
  import opened Bot

  datatype GameMode = Lobby | Local | AgainstBot | Online

  /** The log entries the game logic writes, by translation key. */
  datatype LogEntry =
    | BlueWinsFull
    | RedWinsFull
    | LogCaptured(color: Player, count: nat)
    | LogThinking
    | LogOpponentReset
    | LogPlayerJoined
    | LogLocalStarted

  /** The messages the network delivers; `SYNC` and `EMOJI` carry nothing the
      game logic reacts to. */
  datatype NetworkMessage =
    | MoveMessage(move: Move, sender: Option<Player>)
    | ResetMessage
    | JoinMessage
    | OnlineCountMessage(payload: Option<int>)
    | SyncMessage
    | EmojiMessage

  const MaxLogs: nat := 5

  /** `addLog`: the new entry first, then the previous ones, cut to five. */
  function Newest(entry: LogEntry, logs: seq<LogEntry>): (r: seq<LogEntry>)
    ensures |r| == if |logs| < MaxLogs then |logs| + 1 else MaxLogs
    ensures r[0] == entry
    ensures forall i :: 1 <= i < |r| ==> r[i] == logs[i - 1]
  {
    var all := [entry] + logs;
    if |all| <= MaxLogs then all else all[..MaxLogs]
  }

  /** `checkWinCondition`'s verdict: fewer than two red pieces is a blue win,
      tested first; otherwise fewer than two blue pieces is a red win. */
  function WinnerOf(b: Board): (r: Option<Player>)
    ensures r == Some(Blue) <==> Count(b, Red) < 2
    ensures r == Some(Red) <==> Count(b, Red) >= 2 && Count(b, Blue) < 2
    ensures r == None <==> Count(b, Red) >= 2 && Count(b, Blue) >= 2
    ensures forall w :: r == Some(w) ==> Count(b, Opponent(w)) < 2
  {
    if Count(b, Red) < 2 then Some(Blue)
    else if Count(b, Blue) < 2 then Some(Red)
    else None
  }

  function WinLog(w: Player): LogEntry {
    if w == Blue then BlueWinsFull else RedWinsFull
  }

  /** The board and captures after the piece on `from` is lifted, dropped on
      `to` (whatever was there) and the captures around `to` applied for its
      side. */
  function Played(b: Board, from: Pos, to: Pos): (r: Scan)
    requires At(b, from) != Empty
    ensures |r.captured| <= 2
    ensures At(r.board, to) == At(b, from)
  {
    var piece := At(b, from);
    var dropped := Set(Set(b, from, Empty), to, piece);
    CaptureLocality(dropped, to, piece.owner);
    CaptureFrame(dropped, to, piece.owner);
    Captures(dropped, to, piece.owner)
  }

  /** A move onto an empty square keeps every piece of the side that moves
      and takes from the other side exactly the listed pieces; a side with
      two pieces or more therefore never loses on its own move. */
  lemma MoverNeverLoses(b: Board, from: Pos, to: Pos)
    requires At(b, from) != Empty && At(b, to) == Empty
    ensures var p := At(b, from).owner;
            var s := Played(b, from, to);
            && Count(s.board, p) == Count(b, p)
            && Count(s.board, Opponent(p)) == Count(b, Opponent(p)) - |s.captured|
            && (Count(b, p) >= 2 ==> WinnerOf(s.board) != Some(Opponent(p)))
  {
    var p := At(b, from).owner;
    var b1 := Set(b, from, Empty);
    var b2 := Set(b1, to, Piece(p));
    CountAfterSet(b, from, Empty, p);
    CountAfterSet(b1, to, Piece(p), p);
    CountAfterSet(b, from, Empty, Opponent(p));
    CountAfterSet(b1, to, Piece(p), Opponent(p));
    CaptureFrame(b2, to, p);
  }

  /** The logs after a move: the capture entry, if any, then the win entry,
      if any, each pushed in turn. */
  function MoveLogs(logs: seq<LogEntry>, color: Player, captured: nat, w: Option<Player>): seq<LogEntry> {
    var afterCaptures := if captured > 0 then Newest(LogCaptured(color, captured), logs) else logs;
    if w.Some? then Newest(WinLog(w.value), afterCaptures) else afterCaptures
  }

  /** The logs after the piece on `from` of `b` has moved to `to`. */
  function MovedLogs(b: Board, logs: seq<LogEntry>, from: Pos, to: Pos): seq<LogEntry>
    requires At(b, from) != Empty
  {
    var s := Played(b, from, to);
    MoveLogs(logs, At(b, from).owner, |s.captured|, WinnerOf(s.board))
  }

  /** Steps 1 and 2 of `executeMove`, on a copy of the board: the piece on
      `from` is lifted and dropped on `to`, then the captures around `to` are
      resolved for its side. */
  method MovePiece(b: Board, from: Pos, to: Pos) returns (newBoard: Board, captured: seq<Pos>, movingPiece: Player)
    requires At(b, from) != Empty
    ensures movingPiece == At(b, from).owner
    ensures Scan(newBoard, captured) == Played(b, from, to)
  {
    var nextBoard := b;
    movingPiece := At(nextBoard, from).owner;
    nextBoard := Set(nextBoard, from, Empty);
    nextBoard := Set(nextBoard, to, Piece(movingPiece));
    newBoard, captured := ProcessCaptures(nextBoard, to, movingPiece);
  }

  class Game {
    var mode: GameMode
    var difficulty: Difficulty
    var board: Board
    var turn: Player
    var winner: Option<Player>
    var selected: Option<Pos>
    var possibleMoves: seq<Pos>
    var lastMove: Option<Pos>
    var logs: seq<LogEntry>
    var myPlayer: Option<Player>
    var onlineCount: int

    /** The log holds at most five entries; a selection is a piece of the side
        to move, shown with exactly its destinations, and without a selection
        no destination is shown. */
    ghost predicate Valid()
      reads this
    {
      && |logs| <= MaxLogs
      && (selected.Some? ==> At(board, selected.value) == Piece(turn) && possibleMoves == ValidMoves(board, selected.value))
      && (selected.None? ==> possibleMoves == [])
    }

    /** The state after the piece on `from` of board `b0` has moved to `to`:
        the played board, the destination as last move, no selection, the
        winner recorded if there is one, and otherwise the turn passed on.
        `turn0` and `winner0` are the turn and winner before the move. */
    ghost predicate Moved(b0: Board, turn0: Player, winner0: Option<Player>, from: Pos, to: Pos)
      reads this
    {
      && At(b0, from) != Empty
      && var s := Played(b0, from, to);
         var w := WinnerOf(s.board);
         && board == s.board && lastMove == Some(to) && selected == None && possibleMoves == []
         && winner == (if w.Some? then w else winner0)
         && turn == (if w.Some? then turn0 else Opponent(turn0))
    }

    /** The state reset to the start position: red to move, nothing selected,
        no winner and no last move. */
    ghost predicate Fresh()
      reads this
    {
      IsInitial(board) && turn == Red && winner == None && selected == None && possibleMoves == [] && lastMove == None
    }

    /** The state the screen starts in: the lobby, medium difficulty, the
        start position with red to move, and nothing else set. */
    constructor ()
      ensures Valid()
      ensures mode == Lobby && difficulty == Medium && IsInitial(board) && turn == Red
      ensures winner == None && selected == None && possibleMoves == [] && lastMove == None
      ensures logs == [] && myPlayer == None && onlineCount == 0
    {
      var start := CreateInitialBoard();
      mode := Lobby;
      difficulty := Medium;
      board := start;
      turn := Red;
      winner := None;
      selected := None;
      possibleMoves := [];
      lastMove := None;
      logs := [];
      myPlayer := None;
      onlineCount := 0;
    }

    /** `addLog`. */
    method PushLog(entry: LogEntry)
      modifies this
      ensures logs == Newest(entry, old(logs))
      ensures mode == old(mode) && difficulty == old(difficulty) && board == old(board) && turn == old(turn)
      ensures winner == old(winner) && selected == old(selected) && possibleMoves == old(possibleMoves)
      ensures lastMove == old(lastMove) && myPlayer == old(myPlayer) && onlineCount == old(onlineCount)
    {
      logs := Newest(entry, logs);
    }

    /** `checkWinCondition`: counts both sides of `currentBoard`, records the
        winner and its log entry when there is one, and says whether there is. */
    method CheckWinCondition(currentBoard: Board) returns (hasWon: bool)
      modifies this
      ensures hasWon <==> WinnerOf(currentBoard).Some?
      ensures winner == if hasWon then WinnerOf(currentBoard) else old(winner)
      ensures logs == if hasWon then Newest(WinLog(WinnerOf(currentBoard).value), old(logs)) else old(logs)
      ensures mode == old(mode) && difficulty == old(difficulty) && board == old(board) && turn == old(turn)
      ensures selected == old(selected) && possibleMoves == old(possibleMoves)
      ensures lastMove == old(lastMove) && myPlayer == old(myPlayer) && onlineCount == old(onlineCount)
    {
      var rCount := CountPieces(currentBoard, Red);
      var bCount := CountPieces(currentBoard, Blue);
      if rCount < 2 {
        winner := Some(Blue);
        PushLog(BlueWinsFull);
        return true;
      } else if bCount < 2 {
        winner := Some(Red);
        PushLog(RedWinsFull);
        return true;
      }
      return false;
    }

    /** `resetGame`: the start position, red to move, no winner, no
        selection, no last move, an empty log. */
    method ResetGame()
      modifies this
      ensures Valid()
      ensures IsInitial(board) && turn == Red && winner == None && selected == None
      ensures possibleMoves == [] && lastMove == None && logs == []
      ensures mode == old(mode) && difficulty == old(difficulty)
      ensures myPlayer == old(myPlayer) && onlineCount == old(onlineCount)
    {
      board := CreateInitialBoard();
      turn := Red;
      winner := None;
      selected := None;
      possibleMoves := [];
      lastMove := None;
      logs := [];
    }

    /** `executeMove`: the piece on `from` moves to `to`, captures are applied
        for its side, the selection is dropped, the capture and win entries
        are logged, and the turn passes to the other side unless somebody won. */
    method ExecuteMove(from: Pos, to: Pos)
      requires Valid() && At(board, from) != Empty
      modifies this
      ensures Valid()
      ensures Moved(old(board), old(turn), old(winner), from, to)
      ensures logs == MovedLogs(old(board), old(logs), from, to)
      ensures mode == old(mode) && difficulty == old(difficulty)
      ensures myPlayer == old(myPlayer) && onlineCount == old(onlineCount)
    {
      var newBoard, captured, movingPiece := MovePiece(board, from, to);
      Settle(newBoard, |captured|, movingPiece, to);
    }

    /** Steps 3 to 5 of `executeMove`, once the new board and the number of
        captures are known. */
    method Settle(newBoard: Board, capturedCount: nat, movingPiece: Player, to: Pos)
      requires |logs| <= MaxLogs
      modifies this
      ensures Valid()
      ensures var w := WinnerOf(newBoard);
              && board == newBoard
              && lastMove == Some(to) && selected == None && possibleMoves == []
              && logs == MoveLogs(old(logs), movingPiece, capturedCount, w)
              && winner == (if w.Some? then w else old(winner))
              && turn == (if w.Some? then old(turn) else Opponent(old(turn)))
      ensures mode == old(mode) && difficulty == old(difficulty)
      ensures myPlayer == old(myPlayer) && onlineCount == old(onlineCount)
    {
      board := newBoard;
      lastMove := Some(to);
      selected := None;
      possibleMoves := [];
      if capturedCount > 0 {
        PushLog(LogCaptured(movingPiece, capturedCount));
      }
      var hasWon := CheckWinCondition(newBoard);
      if !hasWon {
        turn := Opponent(turn);
      }
    }

    /** `handlePieceClick`: ignored once there is a winner, or online when it
        is not this player's turn, or on a square without a piece of the side
        to move; clicking the selected piece again drops the selection,
        otherwise the piece is selected with its destinations. */
    method HandlePieceClick(p: Pos)
      requires Valid()
      modifies this
      ensures Valid()
      ensures var ignored := old(winner).Some? || (old(mode) == Online && Some(old(turn)) != old(myPlayer))
                             || At(old(board), p) != Piece(old(turn));
              && (ignored ==> selected == old(selected) && possibleMoves == old(possibleMoves))
              && (!ignored && old(selected) == Some(p) ==> selected == None && possibleMoves == [])
              && (!ignored && old(selected) != Some(p) ==> selected == Some(p) && possibleMoves == ValidMoves(board, p))
      ensures mode == old(mode) && difficulty == old(difficulty) && board == old(board) && turn == old(turn)
      ensures winner == old(winner) && lastMove == old(lastMove) && logs == old(logs)
      ensures myPlayer == old(myPlayer) && onlineCount == old(onlineCount)
    {
      if winner.Some? {
        return;
      }
      if mode == Online && Some(turn) != myPlayer {
        return;
      }
      var clickedPiece := board[p.r][p.c];
      if clickedPiece == Piece(turn) {
        if selected == Some(p) {
          selected := None;
          possibleMoves := [];
          return;
        }
        selected := Some(p);
        possibleMoves := GetValidMoves(board, p);
      }
    }

    /** `handleMoveClick`: ignored without a selection, once there is a
        winner, or online when it is not this player's turn; otherwise the
        selected piece moves to `to`. */
    method HandleMoveClick(to: Pos)
      requires Valid()
      modifies this
      ensures Valid()
      ensures var ignored := old(selected).None? || old(winner).Some?
                             || (old(mode) == Online && Some(old(turn)) != old(myPlayer));
              && (ignored ==> board == old(board) && turn == old(turn) && winner == old(winner)
                              && logs == old(logs) && selected == old(selected)
                              && possibleMoves == old(possibleMoves) && lastMove == old(lastMove))
              && (!ignored ==> Moved(old(board), old(turn), old(winner), old(selected).value, to)
                               && logs == MovedLogs(old(board), old(logs), old(selected).value, to))
      ensures mode == old(mode) && difficulty == old(difficulty)
      ensures myPlayer == old(myPlayer) && onlineCount == old(onlineCount)
    {
      if selected.None? || winner.Some? {
        return;
      }
      if mode == Online && Some(turn) != myPlayer {
        return;
      }
      ExecuteMove(selected.value, to);
    }

    /** `handleNetworkMessage`: a move from another sender is played on the
        current board; a reset or a join resets the game and logs it; an
        online count, when present, is recorded; anything else is ignored. */
    method HandleNetworkMessage(msg: NetworkMessage)
      requires Valid()
      requires msg.MoveMessage? && (msg.sender.None? || msg.sender != myPlayer) ==> At(board, msg.move.from) != Empty
      modifies this
      ensures Valid()
      ensures msg.MoveMessage? && (msg.sender.None? || msg.sender != old(myPlayer)) ==>
                Moved(old(board), old(turn), old(winner), msg.move.from, msg.move.to)
                && logs == MovedLogs(old(board), old(logs), msg.move.from, msg.move.to)
      ensures msg.MoveMessage? && msg.sender.Some? && msg.sender == old(myPlayer) ==>
                board == old(board) && turn == old(turn) && winner == old(winner) && logs == old(logs)
                && selected == old(selected) && possibleMoves == old(possibleMoves) && lastMove == old(lastMove)
      ensures msg.ResetMessage? ==> Fresh() && logs == [LogOpponentReset]
      ensures msg.JoinMessage? ==> Fresh() && logs == []
      ensures onlineCount == if msg.OnlineCountMessage? && msg.payload.Some? then msg.payload.value else old(onlineCount)
      ensures (msg.OnlineCountMessage? || msg.SyncMessage? || msg.EmojiMessage?) ==>
                board == old(board) && turn == old(turn) && winner == old(winner) && logs == old(logs)
                && selected == old(selected) && possibleMoves == old(possibleMoves) && lastMove == old(lastMove)
      ensures mode == old(mode) && difficulty == old(difficulty) && myPlayer == old(myPlayer)
    {
      match msg {
        case MoveMessage(move, sender) =>
          if sender.None? || sender != myPlayer {
            ExecuteMove(move.from, move.to);
          }
        case ResetMessage =>
          ResetGame();
          PushLog(LogOpponentReset);
        case JoinMessage =>
          PushLog(LogPlayerJoined);
          ResetGame();
        case OnlineCountMessage(payload) =>
          if payload.Some? {
            onlineCount := payload.value;
          }
        case SyncMessage =>
        case EmojiMessage =>
      }
    }

    /** The bot's turn: in a game against the bot, with no winner and blue to
        move, the bot's move for blue is played and the thinking entry logged.
        `pick` and `heads` stand for the bot's random choices. */
    method BotTurn(pick: nat, heads: nat -> bool)
      requires Valid()
      modifies this
      ensures Valid()
      ensures var choice := BotChoice(old(board), Blue, old(difficulty), pick, heads);
              var acts := old(mode) == AgainstBot && old(winner).None? && old(turn) == Blue && choice.Some?;
              && (!acts ==> board == old(board) && turn == old(turn) && winner == old(winner) && logs == old(logs)
                            && selected == old(selected) && possibleMoves == old(possibleMoves)
                            && lastMove == old(lastMove))
              && (acts ==> At(old(board), choice.value.from) == Piece(Blue)
                           && Moved(old(board), old(turn), old(winner), choice.value.from, choice.value.to)
                           && logs == Newest(LogThinking, MovedLogs(old(board), old(logs), choice.value.from, choice.value.to)))
      ensures mode == old(mode) && difficulty == old(difficulty)
      ensures myPlayer == old(myPlayer) && onlineCount == old(onlineCount)
    {
      if mode != AgainstBot || winner.Some? || turn == Red {
        return;
      }
      var move := GetBotMove(board, Blue, difficulty, pick, heads);
      if move.Some? {
        BotChoiceIsLegal(board, Blue, difficulty, pick, heads);
        ExecuteMove(move.value.from, move.value.to);
        PushLog(LogThinking);
      }
    }

    /** `startLocalGame`: a reset local game where this screen plays both sides. */
    method StartLocalGame()
      modifies this
      ensures Valid()
      ensures mode == Local && myPlayer == None && Fresh() && logs == [LogLocalStarted]
      ensures difficulty == old(difficulty) && onlineCount == old(onlineCount)
    {
      ResetGame();
      mode := Local;
      myPlayer := None;
      PushLog(LogLocalStarted);
    }

    /** `startBotGame`: a reset game against the bot at `level`, this screen
        playing red. */
    method StartBotGame(level: Difficulty)
      modifies this
      ensures Valid()
      ensures mode == AgainstBot && difficulty == level && myPlayer == Some(Red)
      ensures Fresh() && logs == [LogLocalStarted]
      ensures onlineCount == old(onlineCount)
    {
      ResetGame();
      mode := AgainstBot;
      difficulty := level;
      myPlayer := Some(Red);
      PushLog(LogLocalStarted);
    }
  }
}
