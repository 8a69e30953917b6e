/** `_handle_invalid_move` (`cheezen/client.py`): after the engine failed or
    its move was refused, the handler draws a key and waits for a chat
    reply that starts with it; the rest of the reply is submitted as the
    move. A refused reply draws a fresh key; an accepted one ends the wait. */
module Intervention {
  import opened PyStr
  import opened Game
  import opened Effects

  /** Where the wait stands once the chat messages at hand are used up or
      a reply was accepted: the ledger, the key in force, the chat messages
      not yet read, and whether a reply was accepted. */
  datatype Intervention = Intervention(
    ledger: Ledger, key: string, unread: seq<EventChatMessage>, resolved: bool)

  /** The move a keyed reply proposes: `message.lstrip(key).strip()`. */
  function ReplyMove(text: string, key: string): string
  {
    Strip(LStripChars(text, key))
  }

  /** Number of refused submissions among `submitted[from..]`. */
  function Rejections(env: Env, submitted: seq<string>, from: nat): nat
    decreases |submitted| - from
  {
    if from >= |submitted| then 0
    else (if AcceptedAt(env, from) then 0 else 1) + Rejections(env, submitted, from + 1)
  }

  /** The loop of `_handle_invalid_move` over the chat messages at hand. It
      reads messages in order, only ever appends submissions, never runs the
      engine, and stops early only on an accepted reply. */
  function AwaitHuman(env: Env, ledger: Ledger, key: string, chats: seq<EventChatMessage>)
    : Intervention
    decreases |chats|
  {
    if chats == [] then Intervention(ledger, key, [], false)
    else
      var text := chats[0].text;
      if !StartsWith(text, key) then AwaitHuman(env, ledger, key, chats[1..])
      else
        var afterSubmit := Submit(env, ledger, ReplyMove(text, key)).1;
        if AcceptedAt(env, |ledger.submitted|) then
          Intervention(afterSubmit, key, chats[1..], true)
        else
          var afterDraw := DrawKey(env, afterSubmit).1;
          AwaitHuman(env, afterDraw, env.keys(afterSubmit.keysDrawn), chats[1..])
  }

  /** The wait reads messages in order and leaves a suffix of them unread
      (none unless a reply was accepted), only ever appends submissions,
      appends at least one when it ends resolved, and never runs the engine. */
  lemma {:induction false} AwaitHumanShape(env: Env, ledger: Ledger, key: string,
                                           chats: seq<EventChatMessage>)
    ensures var r := AwaitHuman(env, ledger, key, chats);
      && |r.unread| <= |chats| && r.unread == chats[|chats| - |r.unread|..]
      && (!r.resolved ==> r.unread == [])
      && r.ledger.engineCalls == ledger.engineCalls
      && |ledger.submitted| <= |r.ledger.submitted|
      && r.ledger.submitted[..|ledger.submitted|] == ledger.submitted
      && (r.resolved ==> |r.ledger.submitted| > |ledger.submitted|)
    decreases |chats|
  {
    if chats != [] {
      var text := chats[0].text;
      if !StartsWith(text, key) {
        AwaitHumanShape(env, ledger, key, chats[1..]);
      } else if !AcceptedAt(env, |ledger.submitted|) {
        var afterSubmit := Submit(env, ledger, ReplyMove(text, key)).1;
        var afterDraw := DrawKey(env, afterSubmit).1;
        var r' := AwaitHuman(env, afterDraw, env.keys(afterSubmit.keysDrawn), chats[1..]);
        AwaitHumanShape(env, afterDraw, env.keys(afterSubmit.keysDrawn), chats[1..]);
        assert r'.ledger.submitted[..|ledger.submitted|]
          == r'.ledger.submitted[..|afterDraw.submitted|][..|ledger.submitted|];
      }
    }
  }

  /** The wait is resolved exactly when its last submission was accepted. */
  lemma {:induction false} AwaitHumanResolved(env: Env, ledger: Ledger, key: string,
                                              chats: seq<EventChatMessage>)
    ensures var r := AwaitHuman(env, ledger, key, chats);
      r.resolved <==>
        |r.ledger.submitted| > |ledger.submitted| && AcceptedAt(env, |r.ledger.submitted| - 1)
    decreases |chats|
  {
    if chats != [] {
      var text := chats[0].text;
      if !StartsWith(text, key) {
        AwaitHumanResolved(env, ledger, key, chats[1..]);
      } else if AcceptedAt(env, |ledger.submitted|) {
        var r := AwaitHuman(env, ledger, key, chats);
        assert |r.ledger.submitted| - 1 == |ledger.submitted|;
      } else {
        var afterSubmit := Submit(env, ledger, ReplyMove(text, key)).1;
        var afterDraw := DrawKey(env, afterSubmit).1;
        var r' := AwaitHuman(env, afterDraw, env.keys(afterSubmit.keysDrawn), chats[1..]);
        AwaitHumanResolved(env, afterDraw, env.keys(afterSubmit.keysDrawn), chats[1..]);
        if |r'.ledger.submitted| == |afterDraw.submitted| {
          assert |r'.ledger.submitted| - 1 == |ledger.submitted|;
        }
      }
    }
  }

  /** Every submission of the wait but its last was refused. */
  lemma {:induction false} AwaitHumanRefusals(env: Env, ledger: Ledger, key: string,
                                              chats: seq<EventChatMessage>)
    ensures var r := AwaitHuman(env, ledger, key, chats);
      forall i :: |ledger.submitted| <= i < |r.ledger.submitted| - 1 ==> !AcceptedAt(env, i)
    decreases |chats|
  {
    if chats != [] {
      var text := chats[0].text;
      if !StartsWith(text, key) {
        AwaitHumanRefusals(env, ledger, key, chats[1..]);
      } else if !AcceptedAt(env, |ledger.submitted|) {
        var afterSubmit := Submit(env, ledger, ReplyMove(text, key)).1;
        AwaitHumanRefusals(env, DrawKey(env, afterSubmit).1,
                           env.keys(afterSubmit.keysDrawn), chats[1..]);
      }
    }
  }

  /** One fresh key is drawn per refused submission. */
  lemma {:induction false} AwaitHumanKeyCount(env: Env, ledger: Ledger, key: string,
                                              chats: seq<EventChatMessage>)
    ensures var r := AwaitHuman(env, ledger, key, chats);
      r.ledger.keysDrawn
        == ledger.keysDrawn + Rejections(env, r.ledger.submitted, |ledger.submitted|)
    decreases |chats|
  {
    var r := AwaitHuman(env, ledger, key, chats);
    var n := |ledger.submitted|;
    if chats != [] {
      var text := chats[0].text;
      if !StartsWith(text, key) {
        AwaitHumanKeyCount(env, ledger, key, chats[1..]);
      } else {
        var afterSubmit := Submit(env, ledger, ReplyMove(text, key)).1;
        if AcceptedAt(env, n) {
          assert Rejections(env, afterSubmit.submitted, n + 1) == 0;
        } else {
          var afterDraw := DrawKey(env, afterSubmit).1;
          AwaitHumanShape(env, afterDraw, env.keys(afterSubmit.keysDrawn), chats[1..]);
          AwaitHumanKeyCount(env, afterDraw, env.keys(afterSubmit.keysDrawn), chats[1..]);
          assert r.ledger.submitted[n] == afterSubmit.submitted[n];
          RejectionsStep(env, r.ledger.submitted, n);
        }
      }
    }
  }

  /** The key in force is the newest one drawn, or the starting key if
      none was. */
  lemma {:induction false} AwaitHumanKeyInForce(env: Env, ledger: Ledger, key: string,
                                                chats: seq<EventChatMessage>)
    ensures var r := AwaitHuman(env, ledger, key, chats);
      && r.ledger.keysDrawn >= ledger.keysDrawn
      && (r.ledger.keysDrawn == ledger.keysDrawn ==> r.key == key)
      && (r.ledger.keysDrawn > ledger.keysDrawn ==> r.key == env.keys(r.ledger.keysDrawn - 1))
    decreases |chats|
  {
    if chats != [] {
      var text := chats[0].text;
      if !StartsWith(text, key) {
        AwaitHumanKeyInForce(env, ledger, key, chats[1..]);
      } else if AcceptedAt(env, |ledger.submitted|) {
      } else {
        var afterSubmit := Submit(env, ledger, ReplyMove(text, key)).1;
        var afterDraw := DrawKey(env, afterSubmit).1;
        var r' := AwaitHuman(env, afterDraw, env.keys(afterSubmit.keysDrawn), chats[1..]);
        AwaitHumanKeyInForce(env, afterDraw, env.keys(afterSubmit.keysDrawn), chats[1..]);
        if r'.ledger.keysDrawn == afterDraw.keysDrawn {
          assert r'.ledger.keysDrawn - 1 == afterSubmit.keysDrawn;
        }
      }
    }
  }

  lemma RejectionsStep(env: Env, submitted: seq<string>, from: nat)
    requires from < |submitted| && !AcceptedAt(env, from)
    ensures Rejections(env, submitted, from) == 1 + Rejections(env, submitted, from + 1)
  {
  }

  /** `_handle_invalid_move` from its start: draw a key, then wait. */
  function HandleInvalidMove(env: Env, ledger: Ledger, chats: seq<EventChatMessage>)
    : Intervention
  {
    AwaitHuman(env, DrawKey(env, ledger).1, env.keys(ledger.keysDrawn), chats)
  }

  /** `_handle_invalid_move` keeps the wait's guarantees, draws one key up
      front and one more per refused reply, and leaves the first key in
      force when no reply was refused. */
  lemma HandleInvalidMoveSpec(env: Env, ledger: Ledger, chats: seq<EventChatMessage>)
    ensures var r := HandleInvalidMove(env, ledger, chats);
      && |r.unread| <= |chats| && r.unread == chats[|chats| - |r.unread|..]
      && (!r.resolved ==> r.unread == [])
      && r.ledger.engineCalls == ledger.engineCalls
      && |ledger.submitted| <= |r.ledger.submitted|
      && r.ledger.submitted[..|ledger.submitted|] == ledger.submitted
      && r.ledger.keysDrawn
           == ledger.keysDrawn + 1 + Rejections(env, r.ledger.submitted, |ledger.submitted|)
      && (r.ledger.keysDrawn == ledger.keysDrawn + 1 ==> r.key == env.keys(ledger.keysDrawn))
  {
    var drawn := DrawKey(env, ledger).1;
    AwaitHumanShape(env, drawn, env.keys(ledger.keysDrawn), chats);
    AwaitHumanKeyCount(env, drawn, env.keys(ledger.keysDrawn), chats);
    AwaitHumanKeyInForce(env, drawn, env.keys(ledger.keysDrawn), chats);
  }

  /** Messages that do not start with the key in force are read and
      dropped: no submission, same key, same outcome as without them. */
  lemma {:induction false} IgnoresUnkeyed(env: Env, ledger: Ledger, key: string,
                                          noise: seq<EventChatMessage>, chats: seq<EventChatMessage>)
    requires forall i :: 0 <= i < |noise| ==> !StartsWith(noise[i].text, key)
    ensures AwaitHuman(env, ledger, key, noise + chats) == AwaitHuman(env, ledger, key, chats)
  {
    if noise == [] {
      assert noise + chats == chats;
    } else {
      assert (noise + chats)[0] == noise[0];
      assert (noise + chats)[1..] == noise[1..] + chats;
      IgnoresUnkeyed(env, ledger, key, noise[1..], chats);
    }
  }

  /** A reply that starts with the key in force is submitted at once, as
      `lstrip(key)` then `strip()` of its text; if refused, the wait goes on
      with the next key drawn. */
  lemma SubmitsKeyedReply(env: Env, ledger: Ledger, key: string, chats: seq<EventChatMessage>)
    requires chats != [] && StartsWith(chats[0].text, key)
    ensures var r := AwaitHuman(env, ledger, key, chats);
      && |r.ledger.submitted| > |ledger.submitted|
      && r.ledger.submitted[|ledger.submitted|] == Strip(LStripChars(chats[0].text, key))
    ensures AcceptedAt(env, |ledger.submitted|) ==>
      AwaitHuman(env, ledger, key, chats).unread == chats[1..]
    ensures !AcceptedAt(env, |ledger.submitted|) ==>
      var next := ledger.(submitted := ledger.submitted + [ReplyMove(chats[0].text, key)],
                          keysDrawn := ledger.keysDrawn + 1);
      AwaitHuman(env, ledger, key, chats)
        == AwaitHuman(env, next, env.keys(ledger.keysDrawn), chats[1..])
  {
    var r := AwaitHuman(env, ledger, key, chats);
    var move := ReplyMove(chats[0].text, key);
    var n := |ledger.submitted|;
    if !AcceptedAt(env, n) {
      var next := ledger.(submitted := ledger.submitted + [move], keysDrawn := ledger.keysDrawn + 1);
      AwaitHumanShape(env, next, env.keys(ledger.keysDrawn), chats[1..]);
      assert r.ledger.submitted[..n + 1] == next.submitted;
      assert r.ledger.submitted[n] == r.ledger.submitted[..n + 1][n];
    }
  }

  /** A reply written as the key, one space, and a move with no
      surrounding whitespace proposes exactly that move, provided the space
      is not one of the key's characters. */
  lemma ReplyMoveOfKeyedText(key: string, move: string)
    requires ' ' !in key
    requires move == [] || (!IsSpace(move[0]) && !IsSpace(move[|move| - 1]))
    ensures StartsWith(key + " " + move, key)
    ensures ReplyMove(key + " " + move, key) == move
  {
    var text := key + " " + move;
    assert text[..|key|] == key;
    assert text[|key|] == ' ';
    LStripRemovesPrefix(text, key);
    assert text[|key|..] == " " + move + "";
    StripSurrounded(" ", move, "");
  }

  /** A lone keyed reply is submitted exactly once, whatever the verdict. */
  lemma LoneKeyedReply(env: Env, ledger: Ledger, key: string, text: string)
    requires StartsWith(text, key)
    ensures var r := AwaitHuman(env, ledger, key, [EventChatMessage(text)]);
      && |r.ledger.submitted| == |ledger.submitted| + 1
      && r.ledger.submitted[|ledger.submitted|] == ReplyMove(text, key)
  {
    var chats := [EventChatMessage(text)];
    SubmitsKeyedReply(env, ledger, key, chats);
    if !AcceptedAt(env, |ledger.submitted|) {
      assert chats[1..] == [];
    }
  }

  /** `_handle_invalid_move` given a lone reply that starts with the key it
      draws submits that reply's move exactly once. */
  lemma HandleInvalidMoveLoneReply(env: Env, ledger: Ledger, text: string)
    requires StartsWith(text, env.keys(ledger.keysDrawn))
    ensures var r := HandleInvalidMove(env, ledger, [EventChatMessage(text)]);
      && |r.ledger.submitted| == |ledger.submitted| + 1
      && r.ledger.submitted[|ledger.submitted|] == ReplyMove(text, env.keys(ledger.keysDrawn))
  {
    LoneKeyedReply(env, DrawKey(env, ledger).1, env.keys(ledger.keysDrawn), text);
  }

  /** A reply made of the key in force, one space and a trimmed move
      submits exactly that move; for instance with key "a1b2c3" the reply
      "a1b2c3 Nf3" submits "Nf3". */
  lemma KeyedReplySubmitsMove(env: Env, ledger: Ledger, move: string)
    requires ' ' !in env.keys(ledger.keysDrawn)
    requires move == [] || (!IsSpace(move[0]) && !IsSpace(move[|move| - 1]))
    ensures var key := env.keys(ledger.keysDrawn);
      var r := HandleInvalidMove(env, ledger, [EventChatMessage(key + " " + move)]);
      && |r.ledger.submitted| == |ledger.submitted| + 1
      && r.ledger.submitted[|ledger.submitted|] == move
  {
    ReplyMoveOfKeyedText(env.keys(ledger.keysDrawn), move);
    HandleInvalidMoveLoneReply(env, ledger, env.keys(ledger.keysDrawn) + " " + move);
  }

  lemma KeyedReplyScenario(env: Env, ledger: Ledger)
    requires env.keys(ledger.keysDrawn) == "a1b2c3"
    ensures var r := HandleInvalidMove(env, ledger, [EventChatMessage("a1b2c3" + " " + "Nf3")]);
      && |r.ledger.submitted| == |ledger.submitted| + 1
      && r.ledger.submitted[|ledger.submitted|] == "Nf3"
  {
    KeyedReplySubmitsMove(env, ledger, "Nf3");
  }
}
