/** The outside world one game's handler talks to, and the record of what
    it said. Each kind of call is answered by a function of its call number:
    `engineRuns(i)` is how the i-th engine process ended, `moveStatuses(i)`
    the HTTP status of the i-th move submission, `keys(i)` the i-th key
    `secrets.token_hex(3)` drew. */
module Effects {
  import opened Api
  import opened Engine

  datatype Env = Env(
    engineRuns: nat -> EngineExit,
    moveStatuses: nat -> int,
    keys: nat -> string)

  /** The arguments of one `run_engine` call; the line the engine reads is
      `Engine.EngineInput(moves, blackTime, whiteTime)`. */
  datatype EngineCall = EngineCall(moves: string, blackTime: int, whiteTime: int)

  /** Everything the handler has done so far, oldest first: its engine
      calls, the moves it submitted, and how many keys it drew. */
  datatype Ledger = Ledger(engineCalls: seq<EngineCall>, submitted: seq<string>, keysDrawn: nat)

  /** Whether the platform accepts the i-th move submission. */
  predicate AcceptedAt(env: Env, i: nat)
  {
    MoveAccepted(env.moveStatuses(i))
  }

  /** `make_move`: one more submission, accepted per its HTTP status. */
  function Submit(env: Env, ledger: Ledger, move: string): (r: (bool, Ledger))
    ensures r.1 == ledger.(submitted := ledger.submitted + [move])
    ensures r.0 <==> env.moveStatuses(|ledger.submitted|) == 200
  {
    (AcceptedAt(env, |ledger.submitted|), ledger.(submitted := ledger.submitted + [move]))
  }

  /** Draws the next key. */
  function DrawKey(env: Env, ledger: Ledger): (r: (string, Ledger))
    ensures r.0 == env.keys(ledger.keysDrawn)
    ensures r.1 == ledger.(keysDrawn := ledger.keysDrawn + 1)
  {
    (env.keys(ledger.keysDrawn), ledger.(keysDrawn := ledger.keysDrawn + 1))
  }
}
