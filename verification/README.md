# cheezen in Dafny

A model of the sequential rules inside cheezen, a Lichess bot that plays
games with an external chess engine.

- **Turn rule.** Who is to move follows from the parity of the number of
  pieces the moves string splits into on single spaces.
- **Per-game event handler.** `OngoingGame` folds a game's event stream
  into a latest full-game snapshot and two FIFO queues: game states and
  chat messages.
- **Global event classifier.** `stream_events` turns the account's event
  stream into `gameStart`, challenge and `gameFinish` events.
- **HTTP status mappings.** `make_move` and `get_username` turn an HTTP
  status into a result.
- **Engine protocol.** `run_engine` builds one input line: white clock,
  black clock, move count, moves. It reads the engine's answer back from
  the exit status and the trimmed output.
- **Human intervention.** `_handle_invalid_move` draws a random key. It
  waits for a chat message that starts with the key. It submits the rest of
  the message, after `lstrip(key)` and `strip()`, as the move, and draws a
  new key whenever the platform refuses.
- **Game loop.** `handle_game` takes game states in queue order. It skips
  states where the bot is not to move. Otherwise it consults the engine,
  submits the move, and calls in a human when needed.
- **Registry.** `handle_external_events` keeps the registry of per-game
  handler tasks. A `gameStart` files a new task under its game id, replacing
  any entry already filed there. A `gameFinish` pops its game's entry and
  cancels that task.

Modules follow the program's structure:

| module | file | what it models |
|---|---|---|
| `Wrappers` | `wrappers.dfy` | `Option` and `Result` |
| `PyStr` | `pystr.dfy` | the Python string operations the bot relies on: `split(" ")`, `startswith`, `lstrip(chars)`, `strip()`, `str(int)` |
| `Game` | `game.dfy` | `cheezen/game.py`: `on_turn`, `OngoingGame` and its queues |
| `Api` | `api.dfy` | `cheezen/api.py`: `stream_events`, `make_move`, `get_username` |
| `Engine` | `engine.dfy` | `run_engine` |
| `Effects` | `effects.dfy` | the outside world one game handler talks to, and a ledger of what it did |
| `Intervention` | `intervention.dfy` | `_handle_invalid_move` |
| `GameLoop` | `gameloop.dfy` | `handle_game` |
| `Dispatcher` | `dispatcher.dfy` | `handle_external_events` |

**The outside world is given as data.** Each kind of call is answered by a
function of its call number:

- `engineRuns(i)` is how the i-th engine process ended;
- `moveStatuses(i)` is the HTTP status of the i-th move submission;
- `keys(i)` is the i-th key `secrets.token_hex(3)` drew.

A `Ledger` records the engine calls made, the moves submitted and the keys
drawn. Properties about the handler are stated against it.

**Event streams are finite sequences of already-parsed lines.** Each loop
becomes a fold that stops at the first exception, as follows:

- `HandleEvents` (the per-game handler) stops when a `gameState` line
  arrives before any `gameFull`. The handler then assigns to a `full_game`
  that is still `None`.
- `HandleExternalEvents` (the registry) stops when a `gameFinish` line names
  a game that is not filed, because `dict.pop` raises `KeyError`.
- `PlayGame` (the game loop) stops for either of two reasons:
  - the engine input cannot be encoded as ASCII;
  - the chat messages at hand run out while it waits for a human.

## Model

| member | source | states |
|---|---|---|
| Game.MovesMade | cheezen/client.py:25-27 | The move count is 0 exactly for the empty moves string. Otherwise it is one more than the number of spaces, which is the number of `split(" ")` pieces. |
| Game.OnTurnParity | cheezen/game.py:41-45 | White is to move iff an even number of moves was made. With no moves it is White's turn. Otherwise Black is to move iff the moves string holds an even number of spaces, that is, an odd number of `split(" ")` pieces. |
| Game.OnTurnOfHistory | cheezen/game.py:41-45 | For a move history of non-empty, space-free moves joined by single spaces, White is to move iff the history has even length. |
| Game.HandleEvent | cheezen/game.py:66-77 | One line raises iff it is a `gameState` and no full game is present yet. Otherwise the game keeps its id. |
| Game.HandleEvents | cheezen/game.py:92-103 | `handle_events` handles lines in order. A clean run handles every line. A failed run stops just before the line whose handler raised. |
| Game.HandleEventEffects | cheezen/game.py:66-77 | One line appends its state (if any) to the state queue and its chat message (if any) to the chat queue. A `gameFull` becomes the full game. A `gameState` replaces only the full game's state, keeping its initial position and creation time. Blank lines, chat lines and unknown types leave the full game alone. |
| Game.HandleEventsQueues | cheezen/game.py:92-103 | Both queues are FIFO: each ends as it began, followed by the states (resp. chat messages) of the handled lines in line order. Blank and unknown lines add nothing. |
| Game.HandleEventsFailure | cheezen/game.py:70-73 | Starting without a full game, the handler fails iff some `gameState` line precedes every `gameFull` line. It fails at the first `gameState` line: no `gameState` line comes before the one it fails on. With a full game already present it never fails. After a clean run a full game is present iff one was before or some `gameFull` line arrived. |
| Game.HandleEventsFullGame | cheezen/game.py:66-73 | After a clean run, the full game's initial position and creation time come from the last `gameFull` line (or are unchanged if there was none), and its state is the newest state in the state queue. |
| Game.ReceiveChat | cheezen/game.py:79-80 | `receive_chat` pops the oldest chat message and changes nothing else. An empty queue gives `None`, which stands for waiting. |
| Game.TakeState | cheezen/game.py:82-90 | The queue half of `receive_state` pops the oldest state and changes nothing else. |
| Game.ChatsInArrivalOrder | cheezen/game.py:63-80 | On a fresh game, receiving as many chat messages as the handled lines carried returns exactly those messages, in line order, and empties the chat queue. This holds whether or not the handler task failed. |
| Game.ChatsSurviveFailure | cheezen/game.py:70-80 | A fresh game fed a chat line and then a `gameState` line fails on the second line, yet `receive_chat` still returns the queued message. |
| Api.ClassifyLineKinds | cheezen/api.py:41-51 | Blank lines and unknown types yield nothing. `gameStart`, `challenge` and `gameFinish` lines each yield one event of their own kind, built from the line's own payload. |
| Api.StreamEvents | cheezen/api.py:41-51 | `stream_events` yields at most one event per line. |
| Api.StreamEventsAppend | cheezen/api.py:41-51 | The stream is processed line by line: two stretches of lines together yield the events of the first, then those of the second. |
| Api.StreamEventsOrder | cheezen/api.py:41-51 | Each event is the classification of a distinct yielding line. The lines appear in increasing order, and every yielding line contributes its event. |
| Api.MoveAccepted | cheezen/api.py:64-68 | `make_move` reports success iff the status is 200. |
| Api.GetUsername | cheezen/api.py:53-56 | `get_username` returns the account name iff the status is 200, otherwise `None`. |
| Effects.Submit | cheezen/api.py:64-68 | A move submission is recorded as the next submission and changes nothing else. It is accepted iff the platform answers that submission with status 200. |
| Effects.DrawKey | cheezen/client.py:38 | Drawing a key returns the next key of the sequence and advances the count of keys drawn by one, changing nothing else. |
| PyStr.Split | cheezen/client.py:25 | `split(" ")` always gives at least one piece. |
| PyStr.SplitCount | cheezen/client.py:25 | `split(" ")` gives one more piece than the string has spaces, so the empty string gives one piece. |
| PyStr.SplitPartsSepFree | cheezen/client.py:25 | No piece of `split(" ")` contains a space. Together with `PyStr.SplitJoinsBack` this pins the pieces down. |
| PyStr.SplitJoinsBack | cheezen/client.py:25 | Joining the pieces of `split(" ")` with single spaces gives back the string. |
| PyStr.SplitJoin | cheezen/game.py:45 | Splitting a join of space-free pieces gives back the pieces. |
| PyStr.LStripCharsSpec | cheezen/client.py:47 | `lstrip(chars)` removes the longest prefix made only of characters in `chars`, so the result is a suffix that does not start with one of them. |
| PyStr.LStripRemovesPrefix | cheezen/client.py:47 | On a text starting with the key, `lstrip(key)` removes exactly the key when the text ends there or the next character is not one of the key's characters. |
| PyStr.LStripOverStrips | cheezen/client.py:47 | With key `a1b2c3`, `lstrip(key)` of `a1b2c3c4` gives `4`, not the `c4` that removing the prefix would give. |
| PyStr.StripSpec | cheezen/client.py:35 | `strip()` returns a contiguous piece with no whitespace at either end, and only whitespace around it. |
| PyStr.StripSurrounded | cheezen/client.py:47 | `strip()` of whitespace, a trimmed text and whitespace gives that text. |
| PyStr.IntToDecimal | cheezen/client.py:28 | An integer formatted with `{}` is non-empty and contains no space, and it starts with `-` iff the integer is negative. |
| PyStr.ParseIntDecimal | cheezen/client.py:28 | The decimal form of an integer reads back as that integer, so the formatted line loses nothing. |
| Engine.EngineInput | cheezen/client.py:25-28 | With no moves, the engine input line is the white clock, the black clock and `0 `, with a trailing space. |
| Engine.EngineInputTokens | cheezen/client.py:25-28 | Split on single spaces, the line is the white clock, the black clock, the move count, then the pieces of the moves string. |
| Engine.EngineInputRoundTrip | cheezen/client.py:25-28 | An engine decoding the line recovers the white clock, the black clock, the move count and the exact moves string. |
| Engine.EngineMoveSpec | cheezen/client.py:30-35 | A move is read iff the engine exited with status 0. The move is the engine's output minus the surrounding whitespace. |
| Engine.RunEngine | cheezen/client.py:29 | `run_engine` raises iff the moves string is not ASCII. |
| Engine.RunEngineSpec | cheezen/client.py:29-35 | `run_engine` raises iff the input line is not ASCII. Otherwise it gives no move iff the exit status is non-zero, and the stripped output when the status is zero. |
| Engine.AsciiLine | cheezen/client.py:28-29 | The input line is ASCII exactly when the moves string is. |
| GameLoop.SkipsOffTurn | cheezen/client.py:71-73 | A state on which the bot is not to move is skipped: no engine run, no submission, no key drawn, and the whole ledger unchanged. |
| GameLoop.BlackWaitsAtStart | cheezen/client.py:71-73 | With no moves played and the bot playing Black, the state is skipped without consulting the engine. |
| GameLoop.OnTurnRunsEngine | cheezen/client.py:71-77 | On the bot's turn the engine runs exactly once, with `btime` as black clock and `wtime` as white clock. The turn fails only on non-ASCII moves, and it draws no key. |
| GameLoop.NeedsHumanExactly | cheezen/client.py:75-78 | A human is called in iff the engine exited non-zero or the platform refused its move. A failed engine run submits nothing. A successful run submits its stripped output. |
| GameLoop.PlayStepEngineCalls | cheezen/client.py:68-78 | One iteration crashes iff the bot is to move and the moves are not ASCII. Otherwise it consults the engine exactly for that state's turn, and not at all off-turn. |
| GameLoop.PlayStepUnread | cheezen/client.py:68-78 | An iteration that goes on has read a prefix of the chat messages. |
| GameLoop.PlayGameShape | cheezen/client.py:68-78 | The loop takes states in queue order: at least one unless there are none, and all of them unless it stopped. It reads a prefix of the chat messages. |
| GameLoop.PlayGameCrash | cheezen/client.py:68-78 | The loop crashes iff the last state it took is one where the bot is to move with non-ASCII moves. No earlier state was such a state. |
| GameLoop.PlayGameEngineInputs | cheezen/client.py:68-78 | Unless it crashed, the engine was consulted once per taken state on which the bot was to move, never otherwise, in state order. Each call uses that state's moves and clocks. |
| GameLoop.RunStatesShape | cheezen/client.py:68-78 | For any iteration that reads chat messages in order, the loop takes states in order and leaves a suffix of the chat messages unread. |
| GameLoop.RunStatesCrash | cheezen/client.py:68-78 | For any iteration that crashes exactly on some states, the loop crashes exactly on the first such state it takes. |
| GameLoop.RunStatesCalls | cheezen/client.py:68-78 | For any iteration that adds fixed engine calls per state, the loop's calls are those of the taken states, in order. |
| GameLoop.BlackAnswersFirstMove | cheezen/client.py:71-75 | After White's first move `e4`, Black is to move and the engine reads a move count of 1. |
| Intervention.AwaitHumanShape | cheezen/client.py:41-54 | The wait reads messages in order, and leaves unread only what follows an accepted reply. It only ever appends submissions, and never runs the engine. |
| Intervention.AwaitHumanResolved | cheezen/client.py:49-51 | The wait ends resolved iff it submitted something and its last submission was accepted. |
| Intervention.AwaitHumanRefusals | cheezen/client.py:49-52 | Every submission of the wait but its last was refused. |
| Intervention.AwaitHumanKeyCount | cheezen/client.py:52 | One fresh key is drawn per refused submission. |
| Intervention.AwaitHumanKeyInForce | cheezen/client.py:38-52 | The key in force is the one most recently drawn. It is the starting key if none was drawn. |
| Intervention.HandleInvalidMoveSpec | cheezen/client.py:37-54 | `_handle_invalid_move` draws one key up front and one more per refused reply. It keeps the wait's reading, submission and engine guarantees, and leaves the first key in force when nothing was refused. |
| Intervention.IgnoresUnkeyed | cheezen/client.py:44-45 | Messages that do not start with the key in force are dropped. They cause no submission and no new key, and the outcome is as if they were absent. |
| Intervention.SubmitsKeyedReply | cheezen/client.py:44-53 | A reply that starts with the key is submitted at once as `lstrip(key)` then `strip()` of its text. If it is accepted, the wait ends right after it. If it is refused, the wait continues with the next key. |
| Intervention.LoneKeyedReply | cheezen/client.py:44-53 | A lone keyed reply is submitted exactly once, whatever the verdict. |
| Intervention.HandleInvalidMoveLoneReply | cheezen/client.py:37-53 | Given one reply that starts with the key just drawn, `_handle_invalid_move` submits that reply's move exactly once. |
| Intervention.ReplyMoveOfKeyedText | cheezen/client.py:47 | A reply written as the key, one space and a trimmed move proposes exactly that move, as long as the key has no space. |
| Intervention.KeyedReplySubmitsMove | cheezen/client.py:37-53 | A reply of the drawn key, a space and a trimmed move submits exactly that move. |
| Intervention.KeyedReplyScenario | cheezen/client.py:37-53 | When the key drawn is `a1b2c3`, the reply `a1b2c3 Nf3` submits `Nf3`, exactly once. |
| Dispatcher.HandleExternalEvent | cheezen/client.py:57-64 | One event raises iff it is a `gameFinish` for a game not filed. The list of started tasks and the cancelled set only grow. |
| Dispatcher.HandleExternalEvents | cheezen/client.py:56-64 | `handle_external_events` handles events in order. A clean run handles every event. A failed run stops just before the event whose handling raised. |
| Dispatcher.HandleExternalEventEntries | cheezen/client.py:58-63 | One event changes only its own game's entry. A `gameStart` appends one new task, files it there and cancels nothing. A `gameFinish` removes the entry, cancels the task filed under it and starts nothing. A challenge changes nothing. |
| Dispatcher.RestartOrphansTask | cheezen/client.py:61-63 | On any well-formed registry, a `gameStart` for a filed game leaves the task filed before uncancelled, with no game id filed under it any more, so nothing can cancel it later. |
| Dispatcher.HandleExternalEventWellFormed | cheezen/client.py:58-63 | Each event keeps the registry well formed: every filed task exists, plays its game and is not cancelled. |
| Dispatcher.HandleExternalEventsWellFormed | cheezen/client.py:56-64 | The fold over the event stream keeps the registry well formed. |
| Dispatcher.HandleExternalEventsTracks | cheezen/client.py:56-64 | From an empty registry, a game is filed iff its last start-or-finish event was a `gameStart`. One task is started per `gameStart`, in order. |
| Dispatcher.HandleExternalEventsFailure | cheezen/client.py:56-64 | The dispatcher fails exactly at the first `gameFinish` whose game is not filed by the events before it. |
| Dispatcher.RestartLeavesOrphan | cheezen/client.py:61-63 | A second `gameStart` for a filed game replaces the entry without cancelling the first task, leaving two live tasks. |
| Dispatcher.FinishOfUnknownGameRaises | cheezen/client.py:58-60 | A `gameFinish` for a game never started raises at once and changes nothing. |

## Left out

- **HTTP transport.** Streaming, headers, endpoints and response bodies
  (`cheezen/api.py`) are network I/O. Statuses and payloads enter the model
  as values.
- **JSON and pydantic parsing.** Lines arrive already parsed as tagged
  datatypes. A malformed line or a missing `type` key is not modelled.
  `created_at` is an integer standing for the parsed `datetime`.
- **The engine process.** Spawning, piping and the UTF-8 decoding of its
  output are left out. Each run is given as an exit status and an output
  string. `run_engine` spawns the process before `encode("ascii")` raises, so
  a turn with non-ASCII moves leaves behind a process that is never fed or
  awaited. The model records no engine call for that turn.
- **Key randomness.** `secrets.token_hex(3)` is an input sequence of keys.
  Successive keys are not assumed to differ, and no key is assumed to be
  hex.
- **Side effects.** Logging and the chat messages the bot sends
  (`send_chat_message`) change nothing the model tracks.
- **The `receive_state` race.** `receive_state` waits on both the state
  queue and the handler task. This race, including re-raising the handler's
  exception, is asyncio concurrency. `Game.TakeState` models only the
  queue get.
- **Interleaving.** The model does not fix how state and chat messages
  interleave in time. `GameLoop.PlayGame` is given the states and chat
  messages at hand.
- **Task mechanics.** Starting, cancelling and gathering tasks is concurrency.
  Cancellation is recorded as a set of cancelled task indices, and what a
  cancelled task still does is not modelled.
- **Startup.** `setup`, `loop`, `get_ongoing_games` and `play_game` are
  startup and I/O plumbing, as are `cheezen/main.py` and
  `cheezen/logger.py`. `get_username` is modelled only as its status
  mapping.
- **Registry edge cases.** A `gameFinish` for a game that is not filed,
  and a `gameStart` for a game that is, are not no-ops:
  - `dict.pop` raises `KeyError` on an unknown game, which ends
    `handle_external_events`;
  - a repeated `gameStart` overwrites the entry without cancelling the
    first task (`Dispatcher.RestartOrphansTask`, `Dispatcher.RestartLeavesOrphan`).
