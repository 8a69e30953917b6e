/** `handle_external_events` (`cheezen/client.py`): the account's event
    stream drives the registry of per-game handler tasks. A `gameStart`
    starts a `handle_game` task and files it under its game id, replacing
    whatever was filed there; a `gameFinish` pops its game's entry and
    cancels that task, raising `KeyError` when the id is not filed; a
    challenge changes nothing. */
module Dispatcher {
  import opened Wrappers
  import opened Game
  import opened Api

  /** A `handle_game` task: the game it plays and the colour it plays. */
  datatype GameTask = GameTask(gameId: string, color: Color)

  /** `_game_handlers` together with every task ever started: `handlers`
      maps a game id to the index in `tasks` of the task filed under it,
      and `cancelled` holds the indices of the tasks that were cancelled. */
  datatype Registry = Registry(handlers: map<string, nat>, tasks: seq<GameTask>, cancelled: set<nat>)

  const EmptyRegistry: Registry := Registry(map[], [], {})

  /** `dict.pop` of an id that is not filed. */
  datatype DispatchError = UnknownGame(gameId: string)

  /** Every filed task exists, plays the game it is filed under and was
      not cancelled; every cancelled index is a task. */
  ghost predicate WellFormed(reg: Registry)
  {
    && (forall id :: id in reg.handlers ==>
          reg.handlers[id] < |reg.tasks| && reg.tasks[reg.handlers[id]].gameId == id
          && reg.handlers[id] !in reg.cancelled)
    && (forall i :: i in reg.cancelled ==> i < |reg.tasks|)
  }

  /** One iteration of `handle_external_events`. */
  function HandleExternalEvent(reg: Registry, event: ExternalEvent): (r: Result<Registry, DispatchError>)
    ensures r.Err? <==> event.GameFinish? && event.game.gameId !in reg.handlers
    ensures r.Ok? ==> reg.tasks <= r.value.tasks && reg.cancelled <= r.value.cancelled
  {
    match event
    case GameFinish(game, _, _) =>
      if game.gameId !in reg.handlers then Err(UnknownGame(game.gameId))
      else Ok(reg.(handlers := reg.handlers - {game.gameId},
                   cancelled := reg.cancelled + {reg.handlers[game.gameId]}))
    case GameStart(game) =>
      Ok(reg.(handlers := reg.handlers[game.gameId := |reg.tasks|],
              tasks := reg.tasks + [GameTask(game.gameId, game.color)]))
    case Challenge(_) => Ok(reg)
  }

  /** Every iteration keeps the registry well formed. */
  lemma HandleExternalEventWellFormed(reg: Registry, event: ExternalEvent)
    requires WellFormed(reg)
    ensures var r := HandleExternalEvent(reg, event);
      r.Ok? ==> WellFormed(r.value)
  {
    match event
    case GameFinish(game, _, _) =>
    case GameStart(game) =>
      var r := HandleExternalEvent(reg, event).value;
      forall id | id in r.handlers
        ensures r.handlers[id] < |r.tasks| && r.tasks[r.handlers[id]].gameId == id
                && r.handlers[id] !in r.cancelled
      {
        if id != game.gameId {
          assert r.tasks[reg.handlers[id]] == reg.tasks[reg.handlers[id]];
        }
      }
    case Challenge(_) =>
  }

  /** One event touches only its own game's entry: a `gameStart` appends a
      new task, files it there and cancels nothing; a `gameFinish` removes
      the entry, cancels the task that was filed and starts nothing; a
      challenge changes nothing. Every other game keeps its entry. */
  lemma HandleExternalEventEntries(reg: Registry, event: ExternalEvent)
    ensures var r := HandleExternalEvent(reg, event);
      r.Ok? ==>
        && (forall id :: (event.Challenge? || id != event.game.gameId) ==>
              (id in r.value.handlers <==> id in reg.handlers)
              && (id in reg.handlers ==> r.value.handlers[id] == reg.handlers[id]))
        && (event.GameStart? ==>
              && r.value.tasks == reg.tasks + [GameTask(event.game.gameId, event.game.color)]
              && r.value.cancelled == reg.cancelled
              && event.game.gameId in r.value.handlers
              && r.value.handlers[event.game.gameId] == |reg.tasks|)
        && (event.GameFinish? ==>
              && r.value.tasks == reg.tasks
              && event.game.gameId !in r.value.handlers
              && r.value.cancelled == reg.cancelled + {reg.handlers[event.game.gameId]})
        && (event.Challenge? ==> r.value == reg)
  {
  }

  /** A `gameStart` for a game already filed orphans the task filed under
      it: that task is not cancelled, yet no game id is filed under it any
      more, so nothing can cancel it later. */
  lemma RestartOrphansTask(reg: Registry, game: GameInfo)
    requires WellFormed(reg) && game.gameId in reg.handlers
    ensures var r := HandleExternalEvent(reg, GameStart(game));
      var filed := reg.handlers[game.gameId];
      && r.Ok?
      && filed < |r.value.tasks| && r.value.tasks[filed].gameId == game.gameId
      && filed !in r.value.cancelled
      && (forall id :: id in r.value.handlers ==> r.value.handlers[id] != filed)
  {
  }

  /** What the dispatcher holds after a run of events: its registry, how
      many events it handled, and the error that ended it, if any (the
      event at index `handled` is then the one that raised). */
  datatype Dispatch = Dispatch(registry: Registry, handled: nat, failure: Option<DispatchError>)

  /** `handle_external_events` as a fold over the events, in order,
      stopping at the first event whose handling raises. */
  function HandleExternalEvents(reg: Registry, events: seq<ExternalEvent>): (d: Dispatch)
    ensures d.handled <= |events|
    ensures d.failure.None? ==> d.handled == |events|
    ensures d.failure.Some? ==>
      d.handled < |events| && HandleExternalEvent(d.registry, events[d.handled]).Err?
  {
    if events == [] then Dispatch(reg, 0, None)
    else
      var d := HandleExternalEvents(reg, events[..|events| - 1]);
      if d.failure.Some? then d
      else match HandleExternalEvent(d.registry, events[|events| - 1])
        case Ok(r) => Dispatch(r, |events|, None)
        case Err(e) => Dispatch(d.registry, |events| - 1, Some(e))
  }

  /** The fold keeps the registry well formed. */
  lemma {:induction false} HandleExternalEventsWellFormed(reg: Registry, events: seq<ExternalEvent>)
    requires WellFormed(reg)
    ensures WellFormed(HandleExternalEvents(reg, events).registry)
  {
    if events != [] {
      var init := events[..|events| - 1];
      HandleExternalEventsWellFormed(reg, init);
      var d := HandleExternalEvents(reg, init);
      if d.failure.None? {
        HandleExternalEventWellFormed(d.registry, events[|events| - 1]);
      }
    }
  }

  /** Reference: whether the events leave game `id` filed — its last
      `gameStart` or `gameFinish` event is a `gameStart`. */
  predicate FiledAfter(events: seq<ExternalEvent>, id: string)
  {
    if events == [] then false
    else
      var last := events[|events| - 1];
      if (last.GameStart? || last.GameFinish?) && last.game.gameId == id then last.GameStart?
      else FiledAfter(events[..|events| - 1], id)
  }

  /** Reference: the tasks the events start, one per `gameStart`, in order. */
  function StartedBy(events: seq<ExternalEvent>): seq<GameTask>
  {
    if events == [] then []
    else
      var last := events[|events| - 1];
      StartedBy(events[..|events| - 1])
      + (if last.GameStart? then [GameTask(last.game.gameId, last.game.color)] else [])
  }

  /** From an empty registry, the filed game ids after the handled events
      are exactly the ids those events leave filed, and the tasks are one
      per `gameStart` among them, in order. */
  lemma {:induction false} HandleExternalEventsTracks(events: seq<ExternalEvent>)
    ensures var d := HandleExternalEvents(EmptyRegistry, events);
      && (forall id :: id in d.registry.handlers <==> FiledAfter(events[..d.handled], id))
      && d.registry.tasks == StartedBy(events[..d.handled])
  {
    if events != [] {
      var init := events[..|events| - 1];
      HandleExternalEventsTracks(init);
      var d := HandleExternalEvents(EmptyRegistry, init);
      assert init[..d.handled] == events[..d.handled];
      if d.failure.None? {
        assert events[..|events|] == events;
        assert events[..|events|][..|events| - 1] == init;
      }
    }
  }

  /** From an empty registry, the dispatcher fails exactly at the first
      `gameFinish` whose game the events before it do not leave filed. */
  lemma {:induction false} HandleExternalEventsFailure(events: seq<ExternalEvent>)
    ensures var d := HandleExternalEvents(EmptyRegistry, events);
      && (d.failure.Some? ==>
            events[d.handled].GameFinish?
            && !FiledAfter(events[..d.handled], events[d.handled].game.gameId))
      && (forall i :: 0 <= i < d.handled && events[i].GameFinish? ==>
            FiledAfter(events[..i], events[i].game.gameId))
  {
    if events != [] {
      var init := events[..|events| - 1];
      HandleExternalEventsFailure(init);
      HandleExternalEventsTracks(init);
      var d := HandleExternalEvents(EmptyRegistry, init);
      assert init[..d.handled] == events[..d.handled];
      forall i | 0 <= i < d.handled ensures events[..i] == init[..i] && events[i] == init[i] { }
      if d.failure.None? {
        assert init[..d.handled] == init;
        var last := events[|events| - 1];
        if last.GameFinish? && last.game.gameId in d.registry.handlers {
          assert events[..|events| - 1] == init;
        }
      }
    }
  }

  /** A second `gameStart` for a game already filed replaces its entry
      without cancelling the first task: both tasks stay live, one filed. */
  lemma RestartLeavesOrphan(game: GameInfo)
    ensures var d := HandleExternalEvents(EmptyRegistry, [GameStart(game), GameStart(game)]);
      && d.failure.None?
      && |d.registry.tasks| == 2
      && d.registry.handlers == map[game.gameId := 1]
      && d.registry.cancelled == {}
  {
    var events := [GameStart(game), GameStart(game)];
    var first := HandleExternalEvents(EmptyRegistry, events[..1]);
    assert events[..1] == [GameStart(game)] && events[..1][..0] == [];
    assert HandleExternalEvents(EmptyRegistry, events[..1][..0]) == Dispatch(EmptyRegistry, 0, None);
    assert first.registry == HandleExternalEvent(EmptyRegistry, GameStart(game)).value;
    assert first.registry.tasks == [GameTask(game.gameId, game.color)];
    assert first.registry.cancelled == {};
    var d := HandleExternalEvents(EmptyRegistry, events);
    assert d.registry == HandleExternalEvent(first.registry, GameStart(game)).value;
    assert d.registry.handlers == map[game.gameId := 0][game.gameId := 1];
  }

  /** A `gameFinish` for a game never started raises at once. */
  lemma FinishOfUnknownGameRaises(game: GameInfo, status: GameStatus, winner: Option<Color>)
    ensures HandleExternalEvents(EmptyRegistry, [GameFinish(game, status, winner)])
      == Dispatch(EmptyRegistry, 0, Some(UnknownGame(game.gameId)))
  {
    assert [GameFinish(game, status, winner)][..0] == [];
  }
}
