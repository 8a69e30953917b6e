/** One game's event stream (`cheezen/game.py`): the state snapshot and its
    turn rule, and `OngoingGame`, which demultiplexes the stream's lines into
    a queue of game states and a queue of chat messages. */
module Game {
  import opened Wrappers
  import opened PyStr

  datatype Color = White | Black

  /** `EventGameState`: the moves played so far as one space-separated
      string, both clocks in milliseconds and the game status. */
  datatype EventGameState = EventGameState(moves: string, wtime: int, btime: int, status: string)

  /** `EventGameFull`; `createdAt` stands for the parsed `datetime`. */
  datatype EventGameFull = EventGameFull(initialFen: string, createdAt: int, state: EventGameState)

  datatype EventChatMessage = EventChatMessage(text: string)

  /** `EventGameState.on_turn`: no moves means White; otherwise the parity of
      the number of pieces `moves.split(" ")` gives. */
  function OnTurn(state: EventGameState): Color
  {
    if state.moves == "" then White
    else if |Split(state.moves, ' ')| % 2 == 1 then Black
    else White
  }

  /** Number of moves a moves string stands for: none for the empty string,
      otherwise one per piece of `split(" ")`. */
  function MovesMade(moves: string): (n: nat)
    ensures moves == "" <==> n == 0
    ensures moves != "" ==> n == Count(moves, ' ') + 1
  {
    if moves == "" then 0 else SplitCount(moves, ' '); |Split(moves, ' ')|
  }

  /** The turn rule in terms of the move count: White is to move exactly
      when an even number of moves has been made. */
  lemma OnTurnParity(state: EventGameState)
    ensures OnTurn(state) == White <==> MovesMade(state.moves) % 2 == 0
    ensures state.moves == "" ==> OnTurn(state) == White
    ensures state.moves != "" ==>
      (OnTurn(state) == Black <==> Count(state.moves, ' ') % 2 == 0)
  {
    SplitCount(state.moves, ' ');
  }

  /** Move histories of non-empty, space-free tokens joined by single
      spaces: White is to move iff the history has even length. */
  lemma OnTurnOfHistory(history: seq<string>, wtime: int, btime: int, status: string)
    requires forall i :: 0 <= i < |history| ==> history[i] != "" && ' ' !in history[i]
    ensures var state := EventGameState(Join(history, ' '), wtime, btime, status);
      OnTurn(state) == White <==> |history| % 2 == 0
  {
    if history != [] {
      assert Join(history, ' ') != "" by {
        if |history| > 1 {
          assert Join(history, ' ') == history[0] + [' '] + Join(history[1..], ' ');
        }
      }
      SplitJoin(history, ' ');
    }
  }

  /** A line of a game's event stream, already parsed: the empty keep-alive
      line, one variant per `type` the handler knows, and any other `type`. */
  datatype GameLine =
    | Blank
    | GameFullLine(full: EventGameFull)
    | GameStateLine(state: EventGameState)
    | ChatLine(chat: EventChatMessage)
    | OtherLine(tag: string)  // a `type` other than gameFull, gameState and chatLine

  /** `OngoingGame` minus its handler task: the latest full game (absent
      until the first `gameFull`) and the two queues, oldest first. */
  datatype OngoingGame = OngoingGame(
    gameId: string,
    fullGame: Option<EventGameFull>,
    stateQueue: seq<EventGameState>,
    chatQueue: seq<EventChatMessage>)

  function NewGame(gameId: string): OngoingGame
  {
    OngoingGame(gameId, None, [], [])
  }

  /** The handler fails when a `gameState` arrives before any `gameFull`:
      it assigns `state` on `full_game`, which is still `None`. */
  datatype HandlerError = NoFullGame

  /** One iteration of `handle_events`. */
  function HandleEvent(g: OngoingGame, line: GameLine): (r: Result<OngoingGame, HandlerError>)
    ensures r.Err? <==> line.GameStateLine? && g.fullGame.None?
    ensures r.Ok? ==> r.value.gameId == g.gameId
  {
    match line
    case Blank => Ok(g)
    case GameFullLine(full) =>
      Ok(g.(fullGame := Some(full), stateQueue := g.stateQueue + [full.state]))
    case GameStateLine(state) =>
      if g.fullGame.None? then Err(NoFullGame)
      else Ok(g.(fullGame := Some(g.fullGame.value.(state := state)),
                 stateQueue := g.stateQueue + [state]))
    case ChatLine(chat) => Ok(g.(chatQueue := g.chatQueue + [chat]))
    case OtherLine(_) => Ok(g)
  }

  /** What one line does: its state (if any) joins the end of the state
      queue and its chat message (if any) the end of the chat queue; a
      `gameFull` line becomes the full game, a `gameState` line replaces
      only the full game's state, and no other line touches the full game. */
  lemma HandleEventEffects(g: OngoingGame, line: GameLine)
    ensures var r := HandleEvent(g, line);
      r.Ok? ==>
        && r.value.stateQueue == g.stateQueue + StatesOf([line])
        && r.value.chatQueue == g.chatQueue + ChatsOf([line])
        && (line.GameFullLine? ==> r.value.fullGame == Some(line.full))
        && (line.GameStateLine? ==>
              && r.value.fullGame.Some? && g.fullGame.Some?
              && r.value.fullGame.value.state == line.state
              && r.value.fullGame.value.initialFen == g.fullGame.value.initialFen
              && r.value.fullGame.value.createdAt == g.fullGame.value.createdAt)
        && (!line.GameFullLine? && !line.GameStateLine? ==> r.value.fullGame == g.fullGame)
  {
    assert [line][..0] == [];
  }

  /** Where the handler task stands after a run of lines: the game so far,
      how many lines it handled, and the error that ended it, if any (the
      line at index `handled` is then the one that raised). */
  datatype Demux = Demux(game: OngoingGame, handled: nat, failure: Option<HandlerError>)

  /** `handle_events` as a fold over the lines, in order, stopping at the
      first line whose handler raises. */
  function HandleEvents(g: OngoingGame, lines: seq<GameLine>): (d: Demux)
    ensures d.handled <= |lines|
    ensures d.failure.None? ==> d.handled == |lines|
    ensures d.failure.Some? ==> d.handled < |lines| && HandleEvent(d.game, lines[d.handled]).Err?
  {
    if lines == [] then Demux(g, 0, None)
    else
      var d := HandleEvents(g, lines[..|lines| - 1]);
      if d.failure.Some? then d
      else match HandleEvent(d.game, lines[|lines| - 1])
        case Ok(g') => Demux(g', |lines|, None)
        case Err(e) => Demux(d.game, |lines| - 1, Some(e))
  }

  /** Reference definitions: the states and chat messages the lines carry,
      in line order. */
  function StatesOf(lines: seq<GameLine>): seq<EventGameState>
  {
    if lines == [] then []
    else
      var last := lines[|lines| - 1];
      StatesOf(lines[..|lines| - 1]) +
      (match last
       case GameFullLine(full) => [full.state]
       case GameStateLine(state) => [state]
       case _ => [])
  }

  function ChatsOf(lines: seq<GameLine>): seq<EventChatMessage>
  {
    if lines == [] then []
    else
      var last := lines[|lines| - 1];
      ChatsOf(lines[..|lines| - 1]) + (if last.ChatLine? then [last.chat] else [])
  }

  /** The embedded full game of the last `gameFull` line, if any. */
  function LastFull(lines: seq<GameLine>): Option<EventGameFull>
  {
    if lines == [] then None
    else if lines[|lines| - 1].GameFullLine? then Some(lines[|lines| - 1].full)
    else LastFull(lines[..|lines| - 1])
  }

  /** A `gameState` line at index `i` with no `gameFull` line before it. */
  predicate OrphanStateAt(lines: seq<GameLine>, i: int)
  {
    0 <= i < |lines| && lines[i].GameStateLine?
    && forall j :: 0 <= j < i ==> !lines[j].GameFullLine?
  }

  /** Both queues are FIFO: whatever the outcome, each queue holds what it
      held before followed by the states (resp. chat messages) of the
      handled lines, in line order; `gameId` never changes. */
  lemma {:induction false} HandleEventsQueues(g: OngoingGame, lines: seq<GameLine>)
    ensures var d := HandleEvents(g, lines);
      && d.game.stateQueue == g.stateQueue + StatesOf(lines[..d.handled])
      && d.game.chatQueue == g.chatQueue + ChatsOf(lines[..d.handled])
      && d.game.gameId == g.gameId
  {
    if lines != [] {
      var init := lines[..|lines| - 1];
      HandleEventsQueues(g, init);
      var d := HandleEvents(g, init);
      assert init[..d.handled] == lines[..d.handled];
      assert lines[..|lines|][..|lines| - 1] == init;
    }
  }

  /** With no `gameFull` seen yet, the handler task fails exactly when some
      `gameState` line comes before every `gameFull` line, and it fails at
      the first `gameState` line; with a full game already present it never
      fails. */
  lemma {:induction false} HandleEventsFailure(g: OngoingGame, lines: seq<GameLine>)
    ensures var d := HandleEvents(g, lines);
      d.failure.Some? <==> g.fullGame.None? && exists i :: OrphanStateAt(lines, i)
    ensures var d := HandleEvents(g, lines);
      d.failure.Some? ==> OrphanStateAt(lines, d.handled)
    ensures var d := HandleEvents(g, lines);
      d.failure.Some? ==> forall i :: 0 <= i < d.handled ==> !lines[i].GameStateLine?
    ensures var d := HandleEvents(g, lines);
      d.failure.None? ==> (d.game.fullGame.Some? <==> g.fullGame.Some? || LastFull(lines).Some?)
  {
    if lines != [] {
      var n := |lines| - 1;
      var init := lines[..n];
      HandleEventsFailure(g, init);
      var d := HandleEvents(g, init);
      forall i | OrphanStateAt(init, i) ensures OrphanStateAt(lines, i) {}
      if d.failure.None? {
        var r := HandleEvent(d.game, lines[n]);
        if r.Err? {
          assert OrphanStateAt(lines, n) by {
            forall j | 0 <= j < n ensures !lines[j].GameFullLine? {
              if lines[j].GameFullLine? {
                LastFullSome(init, j);
              }
            }
          }
          forall i | 0 <= i < n ensures !lines[i].GameStateLine? {
            if lines[i].GameStateLine? {
              assert OrphanStateAt(init, i);
            }
          }
        } else {
          forall i | OrphanStateAt(lines, i) ensures g.fullGame.Some? || OrphanStateAt(init, i) {
            if i == n && g.fullGame.None? {
              assert lines[n].GameStateLine?;
              assert LastFull(init).Some?;
              var j := LastFullIndex(init);
            }
          }
        }
      }
    }
  }

  lemma {:induction false} LastFullSome(lines: seq<GameLine>, j: int)
    requires 0 <= j < |lines| && lines[j].GameFullLine?
    ensures LastFull(lines).Some?
  {
    if j < |lines| - 1 {
      LastFullSome(lines[..|lines| - 1], j);
    }
  }

  /** Index of the line `LastFull` picks. */
  function LastFullIndex(lines: seq<GameLine>): (j: nat)
    requires LastFull(lines).Some?
    ensures j < |lines| && lines[j].GameFullLine? && lines[j].full == LastFull(lines).value
  {
    if lines[|lines| - 1].GameFullLine? then |lines| - 1
    else LastFullIndex(lines[..|lines| - 1])
  }

  /** After a clean run the full game's position and creation time are those
      of the last `gameFull` line (or unchanged if there was none), and its
      state is the newest state in the queue: every change to the full game
      also enqueued its state. */
  lemma {:induction false} HandleEventsFullGame(g: OngoingGame, lines: seq<GameLine>)
    requires g.fullGame.Some? ==> |g.stateQueue| > 0 && g.stateQueue[|g.stateQueue| - 1] == g.fullGame.value.state
    ensures var d := HandleEvents(g, lines);
      d.failure.None? && d.game.fullGame.Some? ==>
        && |d.game.stateQueue| > 0
        && d.game.stateQueue[|d.game.stateQueue| - 1] == d.game.fullGame.value.state
        && (LastFull(lines).Some? ==>
              && d.game.fullGame.value.initialFen == LastFull(lines).value.initialFen
              && d.game.fullGame.value.createdAt == LastFull(lines).value.createdAt)
        && (LastFull(lines).None? ==>
              && g.fullGame.Some?
              && d.game.fullGame.value.initialFen == g.fullGame.value.initialFen
              && d.game.fullGame.value.createdAt == g.fullGame.value.createdAt)
  {
    if lines != [] {
      HandleEventsFullGame(g, lines[..|lines| - 1]);
    }
  }

  /** `receive_chat`: the oldest chat message, or `None` when the queue is
      empty (the call would wait). */
  function ReceiveChat(g: OngoingGame): (r: Option<(EventChatMessage, OngoingGame)>)
    ensures r.None? <==> g.chatQueue == []
    ensures r.Some? ==> [r.value.0] + r.value.1.chatQueue == g.chatQueue
    ensures r.Some? ==> r.value.1 == g.(chatQueue := r.value.1.chatQueue)
  {
    if g.chatQueue == [] then None
    else Some((g.chatQueue[0], g.(chatQueue := g.chatQueue[1..])))
  }

  /** The queue half of `receive_state` (its race with the handler task is
      not modelled): the oldest state, or `None` when the queue is empty. */
  function TakeState(g: OngoingGame): (r: Option<(EventGameState, OngoingGame)>)
    ensures r.None? <==> g.stateQueue == []
    ensures r.Some? ==> [r.value.0] + r.value.1.stateQueue == g.stateQueue
    ensures r.Some? ==> r.value.1 == g.(stateQueue := r.value.1.stateQueue)
  {
    if g.stateQueue == [] then None
    else Some((g.stateQueue[0], g.(stateQueue := g.stateQueue[1..])))
  }

  /** `n` successive `receive_chat` calls; `None` if one of them would wait. */
  function ReceiveChats(g: OngoingGame, n: nat): Option<(seq<EventChatMessage>, OngoingGame)>
    decreases n
  {
    if n == 0 then Some(([], g))
    else match ReceiveChat(g)
      case None => None
      case Some((m, g')) =>
        match ReceiveChats(g', n - 1)
        case None => None
        case Some((ms, g'')) => Some(([m] + ms, g''))
  }

  /** FIFO end to end: on a fresh game, receiving as many chat messages as
      the handled lines carry returns exactly those messages, in line
      order. This holds also when the handler task failed: what it queued
      before raising stays in the queue. */
  lemma ChatsInArrivalOrder(gameId: string, lines: seq<GameLine>)
    ensures var d := HandleEvents(NewGame(gameId), lines);
      var cs := ChatsOf(lines[..d.handled]);
      ReceiveChats(d.game, |cs|) == Some((cs, d.game.(chatQueue := [])))
  {
    HandleEventsQueues(NewGame(gameId), lines);
    var d := HandleEvents(NewGame(gameId), lines);
    var cs := ChatsOf(lines[..d.handled]);
    assert d.game.chatQueue == [] + cs;
    assert d.game.chatQueue == cs;
    ReceiveAll(d.game);
  }

  /** A chat message queued before the handler task raised is still
      delivered: a fresh game fed a chat line and then a `gameState` line
      fails on the second line, yet `receive_chat` returns the message. */
  lemma ChatsSurviveFailure(gameId: string, m: EventChatMessage, state: EventGameState)
    ensures var d := HandleEvents(NewGame(gameId), [ChatLine(m), GameStateLine(state)]);
      && d.failure == Some(NoFullGame) && d.handled == 1
      && ReceiveChats(d.game, 1) == Some(([m], d.game.(chatQueue := [])))
  {
    var lines := [ChatLine(m), GameStateLine(state)];
    ChatsInArrivalOrder(gameId, lines);
    HandleEventsFailure(NewGame(gameId), lines);
    assert OrphanStateAt(lines, 1);
    var d := HandleEvents(NewGame(gameId), lines);
    assert !OrphanStateAt(lines, 0);
    assert lines[..1] == [ChatLine(m)] && lines[..1][..0] == [];
    assert ChatsOf(lines[..1]) == [m];
  }

  lemma {:induction false} ReceiveAll(g: OngoingGame)
    ensures ReceiveChats(g, |g.chatQueue|) == Some((g.chatQueue, g.(chatQueue := [])))
    decreases |g.chatQueue|
  {
    if g.chatQueue != [] {
      var g' := g.(chatQueue := g.chatQueue[1..]);
      ReceiveAll(g');
      assert g'.(chatQueue := []) == g.(chatQueue := []);
    }
  }
}
