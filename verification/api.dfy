/** The platform client's sequential rules (`cheezen/api.py`): classifying
    the lines of the account's global event stream, and reading the HTTP
    status of a move submission or an account lookup. */
module Api {
  import opened Wrappers
  import opened Game

  /** `GameState` of the account API (the payload of `gameStart` and
      `gameFinish`). */
  datatype GameInfo = GameInfo(
    gameId: string, color: Color, fen: string,
    hasMoved: bool, isMyTurn: bool, lastMove: string)

  datatype Challenger = Challenger(id: string, name: string)

  datatype OngoingChallenge = OngoingChallenge(id: string, challenger: Challenger)

  datatype GameStatus = GameStatus(name: string)

  /** What `stream_events` yields. */
  datatype ExternalEvent =
    | GameStart(game: GameInfo)
    | Challenge(challenge: OngoingChallenge)
    | GameFinish(game: GameInfo, status: GameStatus, winner: Option<Color>)

  /** A line of the global event stream, already parsed: the empty
      keep-alive line, the three known `type`s with their payloads, and any
      other `type`. */
  datatype EventLine =
    | BlankLine
    | GameStartLine(started: GameInfo)
    | ChallengeLine(offer: OngoingChallenge)
    | GameFinishLine(finished: GameInfo, finishStatus: GameStatus, finishWinner: Option<Color>)
    | UnknownLine(tag: string)  // a `type` other than gameStart, challenge and gameFinish

  /** The event one line yields, if any. */
  function ClassifyLine(line: EventLine): Option<ExternalEvent>
  {
    match line
    case BlankLine => None
    case GameStartLine(game) => Some(GameStart(game))
    case ChallengeLine(challenge) => Some(Challenge(challenge))
    case GameFinishLine(game, status, winner) => Some(GameFinish(game, status, winner))
    case UnknownLine(_) => None
  }

  /** `stream_events` over a finite stretch of the stream. */
  function StreamEvents(lines: seq<EventLine>): (events: seq<ExternalEvent>)
    ensures |events| <= |lines|
  {
    if lines == [] then []
    else
      var last := ClassifyLine(lines[|lines| - 1]);
      StreamEvents(lines[..|lines| - 1]) + (if last.Some? then [last.value] else [])
  }

  /** Exactly the three known line kinds yield an event, built from the
      line's own payload; blank lines and other `type`s yield nothing. */
  lemma ClassifyLineKinds(line: EventLine)
    ensures StreamEvents([line]) == []
            <==> line.BlankLine? || line.UnknownLine?
    ensures line.GameStartLine? ==> StreamEvents([line]) == [GameStart(line.started)]
    ensures line.ChallengeLine? ==> StreamEvents([line]) == [Challenge(line.offer)]
    ensures line.GameFinishLine? ==>
      StreamEvents([line]) == [GameFinish(line.finished, line.finishStatus, line.finishWinner)]
  {
    assert [line][..0] == [];
  }

  /** The stream is processed line by line: two stretches of lines yield
      their events one after the other. */
  lemma {:induction false} StreamEventsAppend(a: seq<EventLine>, b: seq<EventLine>)
    ensures StreamEvents(a + b) == StreamEvents(a) + StreamEvents(b)
    decreases |b|
  {
    if b == [] {
      assert a + b == a;
    } else {
      var b' := b[..|b| - 1];
      assert (a + b)[..|a + b| - 1] == a + b';
      StreamEventsAppend(a, b');
    }
  }

  /** Indices of the lines that yield an event, in increasing order. */
  function Origins(lines: seq<EventLine>): (idx: seq<nat>)
    ensures forall k :: 0 <= k < |idx| ==> idx[k] < |lines|
  {
    if lines == [] then []
    else
      var n := |lines| - 1;
      Origins(lines[..n]) + (if ClassifyLine(lines[n]).Some? then [n] else [])
  }

  /** Yielded events keep the input order: the k-th event comes from the
      k-th yielding line, those lines are in increasing order, and no
      yielding line is skipped. */
  lemma {:induction false} StreamEventsOrder(lines: seq<EventLine>)
    ensures var events := StreamEvents(lines);
      var idx := Origins(lines);
      && |idx| == |events|
      && (forall k :: 0 <= k < |idx| ==> Some(events[k]) == ClassifyLine(lines[idx[k]]))
      && (forall k, l :: 0 <= k < l < |idx| ==> idx[k] < idx[l])
      && (forall i :: 0 <= i < |lines| && ClassifyLine(lines[i]).Some? ==> i in idx)
  {
    if lines != [] {
      var n := |lines| - 1;
      StreamEventsOrder(lines[..n]);
      var idx := Origins(lines);
      var idx' := Origins(lines[..n]);
      forall k | 0 <= k < |idx'| ensures lines[idx'[k]] == lines[..n][idx'[k]] {}
    }
  }

  /** `make_move`: the submission was accepted iff the platform answered 200. */
  function MoveAccepted(status: int): (accepted: bool)
    ensures accepted <==> status == 200
  {
    status == 200
  }

  /** `get_username`: the account's user name on status 200, otherwise
      `None`. */
  function GetUsername(status: int, username: string): (r: Option<string>)
    ensures r.Some? <==> status == 200
    ensures r.Some? ==> r.value == username
  {
    if status == 200 then Some(username) else None
  }
}
