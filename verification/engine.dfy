/** `run_engine` (`cheezen/client.py`): the one line the bot writes to a
    fresh engine process, and how the process's exit status and output
    become a move. Spawning the process is outside the model: its run is
    the `EngineExit` given to `RunEngine`. */
module Engine {
  import opened Wrappers
  import opened PyStr
  import opened Game

  /** How an engine process ended: its exit status and its decoded output. */
  datatype EngineExit = EngineExit(code: int, stdout: string)

  /** `encode("ascii")` raises on the first character above U+007F. */
  datatype EngineError = NonAsciiInput

  predicate IsAscii(s: string)
  {
    s == [] || (s[0] as int < 128 && IsAscii(s[1..]))
  }

  /** The engine input line, parameters in the order of `run_engine`
      (`black_time` before `white_time`); the line itself starts with the
      white clock. With no moves the line ends in a space after the `0`. */
  function EngineInput(moves: string, blackTime: int, whiteTime: int): (line: string)
    ensures moves == "" ==>
      line == IntToDecimal(whiteTime) + " " + IntToDecimal(blackTime) + " 0 "
  {
    IntToDecimal(whiteTime) + " " + IntToDecimal(blackTime) + " "
      + NatToDecimal(MovesMade(moves)) + " " + moves
  }

  /** Split on single spaces, the line is the white clock, the black clock,
      the move count, then the pieces of the moves string. */
  lemma EngineInputTokens(moves: string, blackTime: int, whiteTime: int)
    ensures Split(EngineInput(moves, blackTime, whiteTime), ' ') ==
      [IntToDecimal(whiteTime), IntToDecimal(blackTime), NatToDecimal(MovesMade(moves))]
      + Split(moves, ' ')
  {
    var w := IntToDecimal(whiteTime);
    var b := IntToDecimal(blackTime);
    var n := NatToDecimal(MovesMade(moves));
    DigitsNoSpace(n);
    SplitLeadingFields(w, b, n, moves);
  }

  lemma {:induction false} DigitsNoSpace(s: string)
    requires AllDigits(s)
    ensures ' ' !in s && IsAscii(s)
  {
    if s != [] {
      assert IsDigit(s[0]);
      assert AllDigits(s[1..]) by {
        forall k | 0 <= k < |s[1..]| ensures IsDigit(s[1..][k]) { assert s[1..][k] == s[k + 1]; }
      }
      DigitsNoSpace(s[1..]);
      assert s == [s[0]] + s[1..];
    }
  }

  lemma {:induction false} AsciiConcat(a: string, b: string)
    ensures IsAscii(a + b) <==> IsAscii(a) && IsAscii(b)
  {
    if a == [] {
      assert a + b == b;
    } else {
      assert (a + b)[0] == a[0];
      assert (a + b)[1..] == a[1..] + b;
      AsciiConcat(a[1..], b);
    }
  }

  /** What an engine reads back from its input line. */
  datatype EngineRequest = EngineRequest(whiteTime: int, blackTime: int, movesMade: int, moves: string)

  /** Reference decoder of the engine protocol: three integers and the
      space-separated move list. */
  function DecodeEngineInput(line: string): Option<EngineRequest>
  {
    var parts := Split(line, ' ');
    if |parts| < 4 then None
    else match (ParseInt(parts[0]), ParseInt(parts[1]), ParseInt(parts[2]))
      case (Some(w), Some(b), Some(n)) => Some(EngineRequest(w, b, n, Join(parts[3..], ' ')))
      case _ => None
  }

  /** The input line round-trips: an engine recovers the white clock, the
      black clock, the move count and the exact moves string. */
  lemma EngineInputRoundTrip(moves: string, blackTime: int, whiteTime: int)
    ensures DecodeEngineInput(EngineInput(moves, blackTime, whiteTime))
      == Some(EngineRequest(whiteTime, blackTime, MovesMade(moves), moves))
  {
    var w := IntToDecimal(whiteTime);
    var b := IntToDecimal(blackTime);
    var n := NatToDecimal(MovesMade(moves));
    var parts := Split(EngineInput(moves, blackTime, whiteTime), ' ');
    EngineInputTokens(moves, blackTime, whiteTime);
    assert parts == [w, b, n] + Split(moves, ' ');
    assert parts[0] == w && parts[1] == b && parts[2] == n;
    assert parts[3..] == Split(moves, ' ');
    SplitJoinsBack(moves, ' ');
    ParseIntDecimal(whiteTime);
    ParseIntDecimal(blackTime);
    ParseIntDecimal(MovesMade(moves));
    assert IntToDecimal(MovesMade(moves)) == n;
  }

  /** The move a finished engine run stands for: none on a non-zero exit
      status, otherwise its output with surrounding whitespace removed. */
  function EngineMove(exit: EngineExit): Option<string>
  {
    if exit.code != 0 then None else Some(Strip(exit.stdout))
  }

  /** A move is read exactly when the engine exited with status 0, and it is
      the engine's output minus the whitespace around it. */
  lemma EngineMoveSpec(exit: EngineExit)
    ensures EngineMove(exit).None? <==> exit.code != 0
    ensures var m := EngineMove(exit);
      m.Some? ==>
        && (m.value == [] || (!IsSpace(m.value[0]) && !IsSpace(m.value[|m.value| - 1])))
        && exists lead :: 0 <= lead <= |exit.stdout| - |m.value|
             && m.value == exit.stdout[lead..lead + |m.value|]
             && AllSpace(exit.stdout[..lead])
             && AllSpace(exit.stdout[lead + |m.value|..])
  {
    StripSpec(exit.stdout);
  }

  /** `run_engine` once the process has run as `engine` describes: the
      move read back, or the error `encode("ascii")` raises. Only the moves
      can make the line non-ASCII (`AsciiLine`), so that is the condition checked. */
  function RunEngine(moves: string, blackTime: int, whiteTime: int, engine: EngineExit)
    : (r: Result<Option<string>, EngineError>)
    ensures r.Err? <==> !IsAscii(moves)
  {
    if !IsAscii(moves) then Err(NonAsciiInput) else Ok(EngineMove(engine))
  }

  /** `run_engine` raises exactly when its input line is not ASCII, and
      otherwise returns the move the engine run stands for. */
  lemma RunEngineSpec(moves: string, blackTime: int, whiteTime: int, engine: EngineExit)
    ensures var r := RunEngine(moves, blackTime, whiteTime, engine);
      && (r.Err? <==> !IsAscii(EngineInput(moves, blackTime, whiteTime)))
      && (r.Ok? ==> (r.value.None? <==> engine.code != 0))
      && (r.Ok? && r.value.Some? ==> r.value.value == Strip(engine.stdout))
  {
    AsciiLine(moves, blackTime, whiteTime);
  }

  /** The numbers and separators of the line are ASCII, so the line is
      ASCII exactly when the moves are. */
  lemma AsciiLine(moves: string, blackTime: int, whiteTime: int)
    ensures IsAscii(EngineInput(moves, blackTime, whiteTime)) <==> IsAscii(moves)
  {
    var w := IntToDecimal(whiteTime);
    var b := IntToDecimal(blackTime);
    var n := NatToDecimal(MovesMade(moves));
    DigitsNoSpace(n);
    assert IsAscii(w) by {
      if whiteTime < 0 {
        DigitsNoSpace(NatToDecimal(-whiteTime));
        AsciiConcat("-", NatToDecimal(-whiteTime));
      } else {
        DigitsNoSpace(NatToDecimal(whiteTime));
      }
    }
    assert IsAscii(b) by {
      if blackTime < 0 {
        DigitsNoSpace(NatToDecimal(-blackTime));
        AsciiConcat("-", NatToDecimal(-blackTime));
      } else {
        DigitsNoSpace(NatToDecimal(blackTime));
      }
    }
    AsciiConcat(w, " ");
    AsciiConcat(w + " ", b);
    AsciiConcat(w + " " + b, " ");
    AsciiConcat(w + " " + b + " ", n);
    AsciiConcat(w + " " + b + " " + n, " ");
    AsciiConcat(w + " " + b + " " + n + " ", moves);
  }
}
