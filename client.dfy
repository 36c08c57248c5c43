/** The console client (`ChatClient`): the `/auth` exchange seen from the user's side, and
    the loop that forwards keyboard lines to the server until `/quit`. */
module Client {
  import opened Text

  /** The text every authentication line starts with, as the client tests it (no space). */
  const AuthMarker := "/auth"

  const SuccessWord := "successful"
  const InvalidWord := "Invalid credentials"
  const TakenWord := "already exists"
  const QuitWord := "/quit"
  const FailedNotice := "Authentication failed. Exiting..."

  /** What the client makes of a prompt it has just shown and answered. */
  datatype Verdict = Success | Failure | Continue

  /** The two checks after a prompt is answered: "successful" is looked for first. */
  function Classify(prompt: string): (v: Verdict)
    ensures v == Success <==> Contains(prompt, SuccessWord)
    ensures v == Failure <==> !Contains(prompt, SuccessWord)
                              && (Contains(prompt, InvalidWord) || Contains(prompt, TakenWord))
  {
    if Contains(prompt, SuccessWord) then Success
    else if Contains(prompt, InvalidWord) || Contains(prompt, TakenWord) then Failure
    else Continue
  }

  /** How `handleAuthentication` ends: it returns, or it throws because an `/auth` line is
      too short for `substring(6)`, or because the keyboard has no line left for `nextLine`. */
  datatype AuthEnd = Returned(success: bool) | PromptTooShort | KeyboardExhausted

  /** One run of the client's exchange: how it ended, the prompts printed to the console,
      the replies sent to the server, and the server lines and keyboard lines not yet read. */
  datatype ClientAuth = ClientAuth(end: AuthEnd, shown: seq<string>, sent: seq<string>,
                                   incoming: seq<string>, keyboard: seq<string>)

  /** `handleAuthentication`: lines without the marker are skipped; each marked line has
      its first six characters cut off, is printed, and is answered with the next keyboard
      line before its verdict is taken; the end of the server's stream means failure. */
  function AuthExchange(incoming: seq<string>, keyboard: seq<string>): (a: ClientAuth)
    ensures |a.sent| <= |a.shown|
    decreases |incoming|
  {
    if incoming == [] then ClientAuth(Returned(false), [], [], [], keyboard)
    else
      var response := incoming[0];
      if !StartsWith(response, AuthMarker) then AuthExchange(incoming[1..], keyboard)
      else if |response| < 6 then ClientAuth(PromptTooShort, [], [], incoming[1..], keyboard)
      else
        var prompt := response[6..];
        if keyboard == [] then ClientAuth(KeyboardExhausted, [prompt], [], incoming[1..], [])
        else
          var reply := keyboard[0];
          match Classify(prompt)
          case Success => ClientAuth(Returned(true), [prompt], [reply], incoming[1..], keyboard[1..])
          case Failure => ClientAuth(Returned(false), [prompt], [reply], incoming[1..], keyboard[1..])
          case Continue =>
            var next := AuthExchange(incoming[1..], keyboard[1..]);
            next.(shown := [prompt] + next.shown, sent := [reply] + next.sent)
  }

  /** `whole` is what an exchange produces that has so far shown `shown` and sent
      `replies`, and whose remaining steps produce `rest`. */
  ghost predicate Resumes(whole: ClientAuth, shown: seq<string>, replies: seq<string>, rest: ClientAuth) {
    whole == rest.(shown := shown + rest.shown, sent := replies + rest.sent)
  }

  lemma ResumesAfterPrompt(whole: ClientAuth, shown: seq<string>, replies: seq<string>,
                           prompt: string, reply: string, rest: ClientAuth)
    requires Resumes(whole, shown, replies, rest.(shown := [prompt] + rest.shown, sent := [reply] + rest.sent))
    ensures Resumes(whole, shown + [prompt], replies + [reply], rest)
  {
    assert shown + ([prompt] + rest.shown) == shown + [prompt] + rest.shown;
    assert replies + ([reply] + rest.sent) == replies + [reply] + rest.sent;
  }

  /** An exchange whose remaining steps produce `rest` ends as `rest` does. */
  lemma Concluded(whole: ClientAuth, shown: seq<string>, replies: seq<string>, rest: ClientAuth)
    requires Resumes(whole, shown, replies, rest)
    ensures whole.end == rest.end && whole.incoming == rest.incoming && whole.keyboard == rest.keyboard
    ensures whole.shown == shown + rest.shown && whole.sent == replies + rest.sent
  {
  }

  /** How the sending loop ends: after sending `/quit`, or by the exception `nextLine`
      throws once the keyboard is exhausted. */
  datatype LoopEnd = QuitSent | InputExhausted

  /** The lines the sending loop forwards and how it ends: every keyboard line is sent as
      typed until one equals `/quit` ignoring case, for which the literal `/quit` is sent. */
  datatype Forwarding = Forwarding(end: LoopEnd, sent: seq<string>, keyboard: seq<string>)

  function Forward(keyboard: seq<string>): (f: Forwarding)
    ensures |f.sent| <= |keyboard|
    decreases |keyboard|
  {
    if keyboard == [] then Forwarding(InputExhausted, [], [])
    else if EqualsIgnoreCase(keyboard[0], QuitWord) then Forwarding(QuitSent, [QuitWord], keyboard[1..])
    else
      var next := Forward(keyboard[1..]);
      next.(sent := [keyboard[0]] + next.sent)
  }

  /** What the client prints and sends from the moment its streams are open until the
      constructor returns or throws; the receiving thread's printing is not included. */
  datatype Transcript = Transcript(console: seq<string>, sent: seq<string>)

  /** The constructor body: a failed exchange prints the failure notice, a successful one
      goes on to the sending loop, and an exception ends everything where it happened. */
  function Lifetime(incoming: seq<string>, keyboard: seq<string>): (t: Transcript)
    ensures |t.sent| <= |keyboard|
    ensures AuthExchange(incoming, keyboard).end == Returned(false) ==>
      t.console != [] && t.console[|t.console| - 1] == FailedNotice
  {
    var a := AuthExchange(incoming, keyboard);
    OneReplyPerPrompt(incoming, keyboard);
    ForwardReadsPrefix(a.keyboard);
    match a.end
    case Returned(success) =>
      if success then Transcript(a.shown, a.sent + Forward(a.keyboard).sent)
      else Transcript(a.shown + [FailedNotice], a.sent)
    case PromptTooShort => Transcript(a.shown, a.sent)
    case KeyboardExhausted => Transcript(a.shown, a.sent)
  }

  /** The exchange reads a prefix of the server's lines and of the keyboard, and shows at
      most one prompt per server line it reads. */
  lemma {:induction false} ExchangeReadsPrefix(incoming: seq<string>, keyboard: seq<string>)
    ensures var a := AuthExchange(incoming, keyboard);
      && |a.incoming| <= |incoming| && a.incoming == incoming[|incoming| - |a.incoming|..]
      && |a.keyboard| <= |keyboard| && a.keyboard == keyboard[|keyboard| - |a.keyboard|..]
      && |a.shown| + |a.incoming| <= |incoming|
    decreases |incoming|
  {
    if incoming != [] {
      var response := incoming[0];
      if !StartsWith(response, AuthMarker) {
        ExchangeReadsPrefix(incoming[1..], keyboard);
      } else if |response| >= 6 && keyboard != [] && Classify(response[6..]) == Continue {
        ExchangeReadsPrefix(incoming[1..], keyboard[1..]);
      }
    }
  }

  /** The sending loop reads a prefix of the keyboard and sends one line per line read;
      it stops early only after sending `/quit`. */
  lemma {:induction false} ForwardReadsPrefix(keyboard: seq<string>)
    ensures var f := Forward(keyboard);
      && |f.sent| + |f.keyboard| == |keyboard|
      && f.keyboard == keyboard[|keyboard| - |f.keyboard|..]
      && (f.end == InputExhausted ==> f.keyboard == [])
      && (f.end == QuitSent ==> f.sent != [] && f.sent[|f.sent| - 1] == QuitWord)
    decreases |keyboard|
  {
    if keyboard != [] && !EqualsIgnoreCase(keyboard[0], QuitWord) {
      ForwardReadsPrefix(keyboard[1..]);
    }
  }

  /** Lines without the marker are skipped however many there are. */
  lemma {:induction false} SkipsUnmarkedLines(pre: seq<string>, incoming: seq<string>, keyboard: seq<string>)
    requires forall k :: 0 <= k < |pre| ==> !StartsWith(pre[k], AuthMarker)
    ensures AuthExchange(pre + incoming, keyboard) == AuthExchange(incoming, keyboard)
    decreases |pre|
  {
    if pre != [] {
      assert (pre + incoming)[0] == pre[0];
      assert (pre + incoming)[1..] == pre[1..] + incoming;
      SkipsUnmarkedLines(pre[1..], incoming, keyboard);
    } else {
      assert pre + incoming == incoming;
    }
  }

  /** Every prompt shown is answered with the next keyboard line, in order, except a last
      prompt for which the keyboard had no line left. */
  lemma {:induction false} OneReplyPerPrompt(incoming: seq<string>, keyboard: seq<string>)
    ensures var a := AuthExchange(incoming, keyboard);
      && |a.sent| <= |keyboard|
      && a.sent == keyboard[..|a.sent|]
      && a.keyboard == keyboard[|a.sent|..]
      && |a.shown| == |a.sent| + (if a.end == KeyboardExhausted then 1 else 0)
    decreases |incoming|
  {
    if incoming != [] {
      var response := incoming[0];
      if !StartsWith(response, AuthMarker) {
        OneReplyPerPrompt(incoming[1..], keyboard);
      } else if |response| >= 6 && keyboard != [] && Classify(response[6..]) == Continue {
        OneReplyPerPrompt(incoming[1..], keyboard[1..]);
        var next := AuthExchange(incoming[1..], keyboard[1..]);
        assert keyboard[1..][..|next.sent|] == keyboard[1..|next.sent| + 1];
        assert keyboard[..|next.sent| + 1] == [keyboard[0]] + keyboard[1..|next.sent| + 1];
      }
    }
  }

  /** The exchange succeeds only on a prompt containing "successful", fails on a prompt
      naming invalid credentials or a taken name or at the end of the stream, and every
      earlier prompt was neither. */
  lemma {:induction false} VerdictComesFromLastPrompt(incoming: seq<string>, keyboard: seq<string>)
    ensures var a := AuthExchange(incoming, keyboard);
      && (forall k :: 0 <= k < |a.shown| - 1 ==> Classify(a.shown[k]) == Continue)
      && (a.end == Returned(true) ==> a.shown != [] && Classify(a.shown[|a.shown| - 1]) == Success)
      && (a.end == Returned(false) ==>
            || (a.incoming == [] && (a.shown == [] || Classify(a.shown[|a.shown| - 1]) == Continue))
            || (a.shown != [] && Classify(a.shown[|a.shown| - 1]) == Failure))
    decreases |incoming|
  {
    if incoming != [] {
      var response := incoming[0];
      if !StartsWith(response, AuthMarker) {
        VerdictComesFromLastPrompt(incoming[1..], keyboard);
      } else if |response| >= 6 && keyboard != [] && Classify(response[6..]) == Continue {
        VerdictComesFromLastPrompt(incoming[1..], keyboard[1..]);
        var next := AuthExchange(incoming[1..], keyboard[1..]);
        var shown := [response[6..]] + next.shown;
        assert forall k :: 1 <= k < |shown| ==> shown[k] == next.shown[k - 1];
      }
    }
  }

  /** A line that is exactly the marker is too short for `substring(6)`: the client throws
      before printing anything for it. */
  lemma BareMarkerThrows(incoming: seq<string>, keyboard: seq<string>)
    ensures AuthExchange([AuthMarker] + incoming, keyboard).end == PromptTooShort
  {
    assert StartsWith(AuthMarker, AuthMarker);
  }

  /** The sending loop forwards every line before the first `/quit` (in any case) as typed,
      replaces that line by the literal `/quit`, and reads nothing after it. */
  lemma {:induction false} ForwardStopsAtFirstQuit(pre: seq<string>, quit: string, rest: seq<string>)
    requires forall k :: 0 <= k < |pre| ==> !EqualsIgnoreCase(pre[k], QuitWord)
    requires EqualsIgnoreCase(quit, QuitWord)
    ensures Forward(pre + [quit] + rest) == Forwarding(QuitSent, pre + [QuitWord], rest)
    decreases |pre|
  {
    if pre == [] {
      assert [quit] + rest == [quit] + rest;
      assert ([quit] + rest)[1..] == rest;
    } else {
      assert (pre + [quit] + rest)[0] == pre[0];
      assert (pre + [quit] + rest)[1..] == pre[1..] + [quit] + rest;
      ForwardStopsAtFirstQuit(pre[1..], quit, rest);
      assert [pre[0]] + (pre[1..] + [QuitWord]) == pre + [QuitWord];
    }
  }

  /** Without any `/quit` line, every line is forwarded and the loop ends only when the
      keyboard is exhausted. */
  lemma {:induction false} ForwardWithoutQuit(keyboard: seq<string>)
    requires forall k :: 0 <= k < |keyboard| ==> !EqualsIgnoreCase(keyboard[k], QuitWord)
    ensures Forward(keyboard) == Forwarding(InputExhausted, keyboard, [])
    decreases |keyboard|
  {
    if keyboard != [] {
      ForwardWithoutQuit(keyboard[1..]);
      assert [keyboard[0]] + keyboard[1..] == keyboard;
    }
  }

  /** The client after its connection is open: `running`, what the server still has to
      say, what the user will type, the console output, and the lines sent to the server. */
  class ChatClient {
    var running: bool
    var closed: bool
    var incoming: seq<string>
    var keyboard: seq<string>
    var console: seq<string>
    var sent: seq<string>

    constructor (incoming: seq<string>, keyboard: seq<string>)
      ensures running && !closed
      ensures this.incoming == incoming && this.keyboard == keyboard
      ensures console == [] && sent == []
    {
      running := true;
      closed := false;
      this.incoming := incoming;
      this.keyboard := keyboard;
      console := [];
      sent := [];
    }

    /** `handleAuthentication`, proved to follow `AuthExchange` line by line. */
    method HandleAuthentication() returns (end: AuthEnd)
      modifies this
      ensures var a := AuthExchange(old(incoming), old(keyboard));
        && end == a.end
        && console == old(console) + a.shown
        && sent == old(sent) + a.sent
        && incoming == a.incoming
        && keyboard == a.keyboard
      ensures running == old(running) && closed == old(closed)
    {
      ghost var goal := AuthExchange(incoming, keyboard);
      ghost var shown: seq<string> := [];
      ghost var replies: seq<string> := [];
      while incoming != []
        invariant running == old(running) && closed == old(closed)
        invariant console == old(console) + shown && sent == old(sent) + replies
        invariant Resumes(goal, shown, replies, AuthExchange(incoming, keyboard))
        decreases |incoming|
      {
        ghost var now := AuthExchange(incoming, keyboard);
        var response := incoming[0];
        incoming := incoming[1..];
        if StartsWith(response, AuthMarker) {
          if |response| < 6 {
            assert now == ClientAuth(PromptTooShort, [], [], incoming, keyboard);
            Concluded(goal, shown, replies, now);
            return PromptTooShort;
          }
          var prompt := response[6..];
          console := console + [prompt];
          if keyboard == [] {
            assert now == ClientAuth(KeyboardExhausted, [prompt], [], incoming, keyboard);
            Concluded(goal, shown, replies, now);
            return KeyboardExhausted;
          }
          var reply := keyboard[0];
          keyboard := keyboard[1..];
          sent := sent + [reply];
          var verdict := Classify(prompt);
          if verdict == Success {
            assert now == ClientAuth(Returned(true), [prompt], [reply], incoming, keyboard);
            Concluded(goal, shown, replies, now);
            return Returned(true);
          }
          if verdict == Failure {
            assert now == ClientAuth(Returned(false), [prompt], [reply], incoming, keyboard);
            Concluded(goal, shown, replies, now);
            return Returned(false);
          }
          ResumesAfterPrompt(goal, shown, replies, prompt, reply, AuthExchange(incoming, keyboard));
          shown := shown + [prompt];
          replies := replies + [reply];
        }
      }
      Concluded(goal, shown, replies, AuthExchange(incoming, keyboard));
      return Returned(false);
    }

    /** The sending loop of the constructor, proved to follow `Forward`. It is entered
        with `running` set, and only `/quit` clears it. */
    method SendLoop() returns (end: LoopEnd)
      requires running
      modifies this
      ensures var f := Forward(old(keyboard));
        && end == f.end
        && sent == old(sent) + f.sent
        && keyboard == f.keyboard
      ensures running <==> end == InputExhausted
      ensures incoming == old(incoming) && console == old(console) && closed == old(closed)
    {
      ghost var goal := Forward(keyboard);
      end := InputExhausted;
      while running
        invariant incoming == old(incoming) && console == old(console) && closed == old(closed)
        invariant |old(sent)| <= |sent| && sent[..|old(sent)|] == old(sent)
        invariant running ==>
          var now := Forward(keyboard);
          && goal.end == now.end
          && goal.sent == sent[|old(sent)|..] + now.sent
          && goal.keyboard == now.keyboard
        invariant !running ==>
          end == QuitSent == goal.end && goal.sent == sent[|old(sent)|..] && goal.keyboard == keyboard
        decreases |keyboard|
      {
        if keyboard == [] {
          return InputExhausted;
        }
        var message := keyboard[0];
        keyboard := keyboard[1..];
        if EqualsIgnoreCase(message, QuitWord) {
          running := false;
          sent := sent + [QuitWord];
          end := QuitSent;
          break;
        }
        sent := sent + [message];
      }
    }
    /** The constructor body after the streams are open: authenticate, then either print
        the failure notice or forward keyboard lines; the `finally` block closes the
        connection and clears `running` however the body ends. */
    method Run()
      requires running && !closed
      modifies this
      ensures var t := Lifetime(old(incoming), old(keyboard));
        console == old(console) + t.console && sent == old(sent) + t.sent
      ensures closed && !running
    {
      var end := HandleAuthentication();
      if end == Returned(false) {
        console := console + [FailedNotice];
      } else if end == Returned(true) {
        var loopEnd := SendLoop();
      }
      CloseConnection();
    }

    /** `closeConnection` */
    method CloseConnection()
      modifies this
      ensures !running && closed
      ensures incoming == old(incoming) && keyboard == old(keyboard)
      ensures console == old(console) && sent == old(sent)
    {
      running := false;
      closed := true;
    }
  }
}
