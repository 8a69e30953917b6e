/** `handle_game` (`cheezen/client.py`): for every state the game's stream
    delivers, skip it if the bot is not to move; otherwise run the engine on
    it, submit the engine's move, and fall back to waiting for a human move
    when the engine gave none or the platform refused it. */
module GameLoop {
  import opened Wrappers
  import opened PyStr
  import opened Game
  import opened Engine
  import opened Effects
  import opened Intervention

  datatype TurnOutcome =
    | Skipped              // not the bot's turn
    | Played(move: string) // the engine's move was accepted
    | NeedsHuman           // no engine move, or the platform refused it

  /** The engine run a turn would get: the next one in the environment. */
  function NextEngineRun(env: Env, ledger: Ledger): EngineExit
  {
    env.engineRuns(|ledger.engineCalls|)
  }

  /** One iteration of the `handle_game` loop up to the call of
      `_handle_invalid_move`. The engine gets `btime` as `black_time` and
      `wtime` as `white_time`. */
  function TakeTurn(env: Env, color: Color, ledger: Ledger, state: EventGameState)
    : Result<(TurnOutcome, Ledger), EngineError>
  {
    if OnTurn(state) != color then Ok((Skipped, ledger))
    else
      var call := EngineCall(state.moves, state.btime, state.wtime);
      var run := RunEngine(call.moves, call.blackTime, call.whiteTime, NextEngineRun(env, ledger));
      if run.Err? then Err(run.error)
      else
        var ran := ledger.(engineCalls := ledger.engineCalls + [call]);
        if run.value.None? then Ok((NeedsHuman, ran))
        else
          var submitted := Submit(env, ran, run.value.value).1;
          if AcceptedAt(env, |ran.submitted|) then Ok((Played(run.value.value), submitted))
          else Ok((NeedsHuman, submitted))
  }

  /** A state on which the bot is not to move is skipped: no engine run,
      no submission. */
  lemma SkipsOffTurn(env: Env, color: Color, ledger: Ledger, state: EventGameState)
    requires OnTurn(state) != color
    ensures TakeTurn(env, color, ledger, state) == Ok((Skipped, ledger))
  {
  }

  /** On the bot's turn the engine runs once, with the state's `btime` as
      its black clock and `wtime` as its white clock, so the engine reads
      back `wtime` as the white clock and `btime` as the black one; the turn
      fails only when the moves, and so the line, are not ASCII. */
  lemma OnTurnRunsEngine(env: Env, color: Color, ledger: Ledger, state: EventGameState)
    requires OnTurn(state) == color
    ensures var r := TakeTurn(env, color, ledger, state);
      && (r.Err? <==> !IsAscii(state.moves))
      && (r.Ok? ==>
            && r.value.0 != Skipped
            && r.value.1.engineCalls
                 == ledger.engineCalls + [EngineCall(state.moves, state.btime, state.wtime)]
            && r.value.1.keysDrawn == ledger.keysDrawn)
    ensures DecodeEngineInput(EngineInput(state.moves, state.btime, state.wtime))
      == Some(EngineRequest(state.wtime, state.btime, MovesMade(state.moves), state.moves))
  {
    EngineInputRoundTrip(state.moves, state.btime, state.wtime);
  }

  /** The human is called in exactly when the engine exited non-zero or the
      platform refused its move; a failed engine run submits nothing, a
      successful one submits its stripped output. */
  lemma NeedsHumanExactly(env: Env, color: Color, ledger: Ledger, state: EventGameState)
    requires OnTurn(state) == color && IsAscii(state.moves)
    ensures var r := TakeTurn(env, color, ledger, state);
      var run := NextEngineRun(env, ledger);
      && r.Ok?
      && (r.value.0.NeedsHuman? <==>
            run.code != 0 || env.moveStatuses(|ledger.submitted|) != 200)
      && (run.code != 0 ==> r.value.1.submitted == ledger.submitted)
      && (run.code == 0 ==> r.value.1.submitted == ledger.submitted + [Strip(run.stdout)])
      && (r.value.0.Played? ==> r.value.0.move == Strip(run.stdout))
  {
  }

  /** What the game's handler is doing after the states at hand. */
  datatype LoopStatus =
    | WaitingForState       // every state handled; `receive_state` waits
    | WaitingForChat        // inside `_handle_invalid_move`, out of chat messages
    | Crashed(error: EngineError)

  /** The handler after a run of states: its ledger, how many states it took,
      the chat messages not yet read, and what it is doing. */
  datatype GameRun = GameRun(ledger: Ledger, taken: nat, unread: seq<EventChatMessage>, status: LoopStatus)

  /** Where the loop stands after a turn's outcome was dealt with. */
  datatype Resumed = Resumed(ledger: Ledger, unread: seq<EventChatMessage>, blocked: bool)

  /** The tail of a loop iteration: `_handle_invalid_move` when the turn
      needs a human, nothing otherwise. */
  function Resume(env: Env, outcome: TurnOutcome, afterTurn: Ledger,
                  chats: seq<EventChatMessage>): Resumed
  {
    if !outcome.NeedsHuman? then Resumed(afterTurn, chats, false)
    else
      var help := HandleInvalidMove(env, afterTurn, chats);
      Resumed(help.ledger, help.unread, !help.resolved)
  }

  /** One state's full iteration of the `handle_game` loop. */
  datatype Step =
    | Crash(error: EngineError)                                       // the engine could not be run
    | Blocked(ledger: Ledger)                                         // waiting for a human move
    | Continue(ledger: Ledger, unread: seq<EventChatMessage>)         // on to the next state

  function PlayStep(env: Env, color: Color, ledger: Ledger, state: EventGameState,
                    chats: seq<EventChatMessage>): Step
  {
    var turn := TakeTurn(env, color, ledger, state);
    if turn.Err? then Crash(turn.error)
    else
      var res := Resume(env, turn.value.0, turn.value.1, chats);
      if res.blocked then Blocked(res.ledger) else Continue(res.ledger, res.unread)
  }

  /** The engine call a state asks for: one when `color` is to move on it,
      none otherwise. */
  function CallsFor(state: EventGameState, color: Color): seq<EngineCall>
  {
    if OnTurn(state) == color then [EngineCall(state.moves, state.btime, state.wtime)] else []
  }

  /** The calls `calls` assigns to each state, in state order. */
  function FlatCalls(calls: EventGameState -> seq<EngineCall>, states: seq<EventGameState>)
    : seq<EngineCall>
  {
    if states == [] then [] else calls(states[0]) + FlatCalls(calls, states[1..])
  }

  /** Reference: the engine calls the states on which `color` is to move
      ask for, in order. */
  function EngineCalls(states: seq<EventGameState>, color: Color): seq<EngineCall>
  {
    FlatCalls(s => CallsFor(s, color), states)
  }

  /** A step crashes exactly on a state the bot is to move on whose moves
      are not ASCII; otherwise it consulted the engine exactly for the calls
      its state asks for. */
  lemma PlayStepEngineCalls(env: Env, color: Color, ledger: Ledger, state: EventGameState,
                            chats: seq<EventChatMessage>)
    ensures var r := PlayStep(env, color, ledger, state, chats);
      && (r.Crash? <==> OnTurn(state) == color && !IsAscii(state.moves))
      && (!r.Crash? ==> r.ledger.engineCalls == ledger.engineCalls + CallsFor(state, color))
  {
    if OnTurn(state) == color {
      OnTurnRunsEngine(env, color, ledger, state);
    }
    var turn := TakeTurn(env, color, ledger, state);
    if turn.Ok? && turn.value.0.NeedsHuman? {
      HandleInvalidMoveSpec(env, turn.value.1, chats);
    }
  }

  /** A step that goes on has read a prefix of the chat messages. */
  lemma PlayStepUnread(env: Env, color: Color, ledger: Ledger, state: EventGameState,
                       chats: seq<EventChatMessage>)
    ensures var r := PlayStep(env, color, ledger, state, chats);
      r.Continue? ==> |r.unread| <= |chats| && r.unread == chats[|chats| - |r.unread|..]
  {
    var turn := TakeTurn(env, color, ledger, state);
    if turn.Ok? && turn.value.0.NeedsHuman? {
      HandleInvalidMoveSpec(env, turn.value.1, chats);
    }
  }

  /** One loop iteration as a function of the ledger, the state taken and
      the chat messages at hand. */
  type Stepper = (Ledger, EventGameState, seq<EventChatMessage>) -> Step

  /** The `handle_game` loop over the states at hand, in queue order, each
      handled by `step`: it stops at a crash or when waiting for a human. */
  function RunStates(step: Stepper, ledger: Ledger, states: seq<EventGameState>,
                     chats: seq<EventChatMessage>): GameRun
    decreases |states|
  {
    if states == [] then GameRun(ledger, 0, chats, WaitingForState)
    else
      match step(ledger, states[0], chats)
      case Crash(error) => GameRun(ledger, 1, chats, Crashed(error))
      case Blocked(afterHelp) => GameRun(afterHelp, 1, [], WaitingForChat)
      case Continue(next, unread) =>
        var r := RunStates(step, next, states[1..], unread);
        r.(taken := r.taken + 1)
  }

  /** `handle_game` for a bot playing `color`, over the states and chat
      messages at hand. */
  function PlayGame(env: Env, color: Color, ledger: Ledger,
                    states: seq<EventGameState>, chats: seq<EventChatMessage>): GameRun
  {
    RunStates((l, s, c) => PlayStep(env, color, l, s, c), ledger, states, chats)
  }

  /** Every iteration that goes on leaves a suffix of the chat messages unread. */
  ghost predicate ReadsInOrder(step: Stepper)
  {
    forall l, s, c :: step(l, s, c).Continue? ==>
      |step(l, s, c).unread| <= |c| && step(l, s, c).unread == c[|c| - |step(l, s, c).unread|..]
  }

  /** An iteration crashes exactly on the states `bad` picks out. */
  ghost predicate CrashesExactlyOn(step: Stepper, bad: EventGameState -> bool)
  {
    forall l, s, c :: step(l, s, c).Crash? <==> bad(s)
  }

  /** An iteration that does not crash appends the calls `calls` assigns to
      its state, and no others. */
  ghost predicate CallsPerState(step: Stepper, calls: EventGameState -> seq<EngineCall>)
  {
    forall l, s, c :: !step(l, s, c).Crash? ==>
      step(l, s, c).ledger.engineCalls == l.engineCalls + calls(s)
  }

  /** The loop takes states in order, at least one unless there are none,
      all of them unless it stopped, and reads a prefix of the chat
      messages. */
  lemma {:induction false} RunStatesShape(step: Stepper, ledger: Ledger,
                                          states: seq<EventGameState>,
                                          chats: seq<EventChatMessage>)
    requires ReadsInOrder(step)
    ensures var r := RunStates(step, ledger, states, chats);
      && r.taken <= |states|
      && (states != [] ==> r.taken >= 1)
      && (r.status.WaitingForState? ==> r.taken == |states|)
      && |r.unread| <= |chats| && r.unread == chats[|chats| - |r.unread|..]
    decreases |states|
  {
    if states != [] {
      match step(ledger, states[0], chats)
      case Crash(_) =>
      case Blocked(_) =>
      case Continue(next, unread) =>
        RunStatesShape(step, next, states[1..], unread);
        var r' := RunStates(step, next, states[1..], unread);
        assert r'.unread == chats[|chats| - |r'.unread|..];
    }
  }

  /** The loop crashes only on the last state it took, one of the states
      its iteration crashes on, and every earlier state was not one. */
  lemma {:induction false} RunStatesCrash(step: Stepper, bad: EventGameState -> bool,
                                          ledger: Ledger, states: seq<EventGameState>,
                                          chats: seq<EventChatMessage>)
    requires CrashesExactlyOn(step, bad)
    ensures var r := RunStates(step, ledger, states, chats);
      && r.taken <= |states|
      && (forall i :: 0 <= i < r.taken - 1 ==> !bad(states[i]))
      && (r.status.Crashed? <==> r.taken >= 1 && bad(states[r.taken - 1]))
    decreases |states|
  {
    if states != [] {
      match step(ledger, states[0], chats)
      case Crash(_) =>
      case Blocked(_) =>
      case Continue(next, unread) =>
        RunStatesCrash(step, bad, next, states[1..], unread);
        var r' := RunStates(step, next, states[1..], unread);
        forall i | 0 <= i < r'.taken ensures !bad(states[i]) {
          if i > 0 { assert states[i] == states[1..][i - 1]; }
        }
        if r'.taken >= 1 { assert states[1..][r'.taken - 1] == states[r'.taken]; }
    }
  }

  /** Unless it crashed, the loop's engine calls are those its iterations
      assign to the states it took, in state order. */
  lemma {:induction false} RunStatesCalls(step: Stepper, calls: EventGameState -> seq<EngineCall>,
                                          ledger: Ledger, states: seq<EventGameState>,
                                          chats: seq<EventChatMessage>)
    requires CallsPerState(step, calls)
    ensures var r := RunStates(step, ledger, states, chats);
      !r.status.Crashed? ==>
        && r.taken <= |states|
        && r.ledger.engineCalls == ledger.engineCalls + FlatCalls(calls, states[..r.taken])
    decreases |states|
  {
    if states != [] {
      match step(ledger, states[0], chats)
      case Crash(_) =>
      case Blocked(afterHelp) =>
        FlatCallsStep(calls, states, 0, ledger.engineCalls, afterHelp.engineCalls,
                      afterHelp.engineCalls);
      case Continue(next, unread) =>
        RunStatesCalls(step, calls, next, states[1..], unread);
        var r' := RunStates(step, next, states[1..], unread);
        if !r'.status.Crashed? {
          FlatCallsStep(calls, states, r'.taken, ledger.engineCalls, next.engineCalls,
                        r'.ledger.engineCalls);
        }
    }
  }

  /** Calls accumulate: those of the first state followed by those of the
      next `k` states are those of the first `k + 1`. */
  lemma FlatCallsStep(calls: EventGameState -> seq<EngineCall>, states: seq<EventGameState>,
                      k: nat, before: seq<EngineCall>, middle: seq<EngineCall>,
                      after: seq<EngineCall>)
    requires states != [] && k < |states|
    requires middle == before + calls(states[0])
    requires after == middle + FlatCalls(calls, states[1..][..k])
    ensures after == before + FlatCalls(calls, states[..k + 1])
  {
    assert states[..k + 1][1..] == states[1..][..k];
  }

  /** `handle_game` takes the states in order, at least one unless there
      are none, all of them unless it stopped, and reads a prefix of the
      chat messages. */
  lemma PlayGameShape(env: Env, color: Color, ledger: Ledger,
                      states: seq<EventGameState>, chats: seq<EventChatMessage>)
    ensures var r := PlayGame(env, color, ledger, states, chats);
      && r.taken <= |states|
      && (states != [] ==> r.taken >= 1)
      && (r.status.WaitingForState? ==> r.taken == |states|)
      && |r.unread| <= |chats| && r.unread == chats[|chats| - |r.unread|..]
  {
    var step: Stepper := (l, s, c) => PlayStep(env, color, l, s, c);
    forall l, s, c ensures step(l, s, c).Continue? ==>
      |step(l, s, c).unread| <= |c| && step(l, s, c).unread == c[|c| - |step(l, s, c).unread|..]
    {
      PlayStepUnread(env, color, l, s, c);
    }
    RunStatesShape(step, ledger, states, chats);
  }

  /** The handler crashes exactly when it took a state on which the bot was
      to move and whose moves are not ASCII; that state is the last it took
      and no earlier one was such a state. */
  lemma PlayGameCrash(env: Env, color: Color, ledger: Ledger,
                      states: seq<EventGameState>, chats: seq<EventChatMessage>)
    ensures var r := PlayGame(env, color, ledger, states, chats);
      var bad := (s: EventGameState) => OnTurn(s) == color && !IsAscii(s.moves);
      && r.taken <= |states|
      && (forall i :: 0 <= i < r.taken - 1 ==> !bad(states[i]))
      && (r.status.Crashed? <==> r.taken >= 1 && bad(states[r.taken - 1]))
  {
    var step: Stepper := (l, s, c) => PlayStep(env, color, l, s, c);
    var bad := (s: EventGameState) => OnTurn(s) == color && !IsAscii(s.moves);
    forall l, s, c ensures step(l, s, c).Crash? <==> bad(s) {
      PlayStepEngineCalls(env, color, l, s, c);
    }
    RunStatesCrash(step, bad, ledger, states, chats);
  }

  /** Unless it crashed, the handler consulted the engine once per taken
      state on which the bot was to move, never otherwise, in state order. */
  lemma PlayGameEngineInputs(env: Env, color: Color, ledger: Ledger,
                             states: seq<EventGameState>, chats: seq<EventChatMessage>)
    ensures var r := PlayGame(env, color, ledger, states, chats);
      !r.status.Crashed? ==>
        && r.taken <= |states|
        && r.ledger.engineCalls == ledger.engineCalls + EngineCalls(states[..r.taken], color)
  {
    var step: Stepper := (l, s, c) => PlayStep(env, color, l, s, c);
    var calls := (s: EventGameState) => CallsFor(s, color);
    forall l, s, c ensures !step(l, s, c).Crash? ==>
      step(l, s, c).ledger.engineCalls == l.engineCalls + calls(s)
    {
      PlayStepEngineCalls(env, color, l, s, c);
    }
    RunStatesCalls(step, calls, ledger, states, chats);
  }

  /** The opening position with the bot playing Black: White is to move,
      so the state is skipped without consulting the engine. */
  lemma BlackWaitsAtStart(env: Env, ledger: Ledger, wtime: int, btime: int, status: string)
    ensures TakeTurn(env, Black, ledger, EventGameState("", wtime, btime, status))
      == Ok((Skipped, ledger))
  {
  }

  /** After White's first move "e4" Black is to move, and the engine gets a
      move count of 1. */
  lemma BlackAnswersFirstMove(env: Env, ledger: Ledger, wtime: int, btime: int, status: string)
    ensures OnTurn(EventGameState("e4", wtime, btime, status)) == Black
    ensures DecodeEngineInput(EngineInput("e4", btime, wtime))
      == Some(EngineRequest(wtime, btime, 1, "e4"))
  {
    assert Split("e4", ' ') == ["e4"] by { SplitNoSep("e4", ' '); }
    EngineInputRoundTrip("e4", btime, wtime);
  }
}
