/** The `/auth` exchange from both ends: the lines `ClientHandler.handleAuthentication`
    writes, read by `ChatClient.handleAuthentication`. */
module Handshake {
  import opened Text
  import opened Authentication
  import opened Client

  /** The text the client prints for a server line: everything after the six-character tag. */
  function Shown(lines: seq<string>): (r: seq<string>)
    requires forall k :: 0 <= k < |lines| ==> |lines[k]| >= 6
    ensures |r| == |lines|
    ensures forall k :: 0 <= k < |lines| ==> r[k] == lines[k][6..]
  {
    seq(|lines|, k requires 0 <= k < |lines| => lines[k][6..])
  }

  /** A line lacking some character of `part` does not contain `part`. */
  lemma LacksChar(s: string, part: string, k: nat)
    requires k < |part| && part[k] !in s
    ensures !Contains(s, part)
  {
    if Contains(s, part) {
      ContainedCharsOccur(s, part, k);
    }
  }

  /** Neither "successful" (no `f`), "Invalid credentials" (no `v`) nor "already exists"
      (no `x`) occurs in `s`. */
  lemma Undecided(s: string)
    requires forall i :: 0 <= i < |s| ==> s[i] != 'f' && s[i] != 'v' && s[i] != 'x'
    ensures Classify(s) == Continue
  {
    assert SuccessWord[7] == 'f' && InvalidWord[2] == 'v' && TakenWord[9] == 'x';
    LacksChar(s, SuccessWord, 7);
    LacksChar(s, InvalidWord, 2);
    LacksChar(s, TakenWord, 9);
  }

  /** A tagged line passes the client's marker test and is cut back to its text. */
  lemma Tagged(text: string)
    ensures |AuthTag + text| >= 6 && StartsWith(AuthTag + text, AuthMarker)
    ensures (AuthTag + text)[6..] == text
  {
    assert (AuthTag + text)[..5] == AuthMarker;
  }

  /** The client shows a server line and, once it has answered it, reaches verdict `v`. */
  predicate Reads(line: string, v: Verdict) {
    StartsWith(line, AuthMarker) && |line| >= 6 && Classify(line[6..]) == v
  }

  /** A server line the client shows and answers without reaching a verdict. */
  predicate Waits(line: string) {
    Reads(line, Continue)
  }

  /** A tagged text without an `f`, a `v` or an `x` leaves the client waiting. */
  lemma TaggedUndecided(text: string)
    requires forall i :: 0 <= i < |text| ==> text[i] != 'f' && text[i] != 'v' && text[i] != 'x'
    ensures Waits(AuthTag + text)
  {
    Tagged(text);
    Undecided(text);
  }

  lemma ChooseWaits()
    ensures Waits(ChoosePrompt)
  {
    var text := "Choose action (1: Login, 2: Register):";
    assert forall i :: 0 <= i < |text| ==> text[i] != 'f' && text[i] != 'v' && text[i] != 'x';
    TaggedUndecided(text);
  }

  lemma NewNameWaits()
    ensures Waits(NewNamePrompt)
  {
    var text := "Enter new username:";
    assert forall i :: 0 <= i < |text| ==> text[i] != 'f' && text[i] != 'v' && text[i] != 'x';
    TaggedUndecided(text);
  }

  lemma NameWaits()
    ensures Waits(NamePrompt)
  {
    var text := "Enter username:";
    assert forall i :: 0 <= i < |text| ==> text[i] != 'f' && text[i] != 'v' && text[i] != 'x';
    TaggedUndecided(text);
  }

  lemma PasswordWaits()
    ensures Waits(PasswordPrompt)
  {
    var text := "Enter password:";
    assert forall i :: 0 <= i < |text| ==> text[i] != 'f' && text[i] != 'v' && text[i] != 'x';
    TaggedUndecided(text);
  }

  /** Every server prompt leaves the client waiting for the next line. */
  lemma PromptsKeepClientWaiting()
    ensures forall line :: line in PromptLines ==> Waits(line)
  {
    ChooseWaits();
    NewNameWaits();
    NameWaits();
    PasswordWaits();
  }

  /** A line without an `f` does not contain "successful". */
  lemma NoSuccess(s: string)
    requires forall i :: 0 <= i < |s| ==> s[i] != 'f'
    ensures !Contains(s, SuccessWord)
  {
    assert SuccessWord[7] == 'f';
    LacksChar(s, SuccessWord, 7);
  }

  /** `text` holds `word` at position `i`. */
  lemma WordAt(text: string, word: string, i: nat)
    requires i + |word| <= |text|
    requires forall j :: 0 <= j < |word| ==> text[i + j] == word[j]
    ensures Contains(text, word)
  {
    assert text[i..i + |word|] == word;
    ContainsAt(text, word, i);
  }

  /** The line announcing a registration reads as success. */
  lemma RegisteredSucceeds()
    ensures Reads(RegisteredReply, Success)
  {
    var text := "Registration successful! Press Enter to Continue.";
    Tagged(text);
    forall j | 0 <= j < |SuccessWord| ensures text[13 + j] == SuccessWord[j] {}
    WordAt(text, SuccessWord, 13);
  }

  /** The line announcing a login reads as success. */
  lemma LoggedInSucceeds()
    ensures Reads(LoggedInReply, Success)
  {
    var text := "Login successful!";
    Tagged(text);
    forall j | 0 <= j < |SuccessWord| ensures text[6 + j] == SuccessWord[j] {}
    WordAt(text, SuccessWord, 6);
  }

  /** The taken-name line reads as failure. */
  lemma NameTakenFails()
    ensures Reads(NameTakenReply, Failure)
  {
    var text := "Username already exists!";
    NoSuccess(text);
    Tagged(text);
    forall j | 0 <= j < |TakenWord| ensures text[9 + j] == TakenWord[j] {}
    WordAt(text, TakenWord, 9);
  }

  /** The invalid-credentials line reads as failure. */
  lemma InvalidCredentialsFail()
    ensures Reads(InvalidReply, Failure)
  {
    var text := "Invalid credentials!";
    NoSuccess(text);
    Tagged(text);
    forall j | 0 <= j < |InvalidWord| ensures text[0 + j] == InvalidWord[j] {}
    WordAt(text, InvalidWord, 0);
  }

  /** A waiting line is shown and answered with the next keyboard line, and the client
      reads on. */
  lemma AnswerOne(prompt: string, tail: seq<string>, keyboard: seq<string>)
    requires Waits(prompt) && keyboard != []
    ensures var next := AuthExchange(tail, keyboard[1..]);
      AuthExchange([prompt] + tail, keyboard)
        == next.(shown := [prompt[6..]] + next.shown, sent := [keyboard[0]] + next.sent)
  {
    assert ([prompt] + tail)[0] == prompt && ([prompt] + tail)[1..] == tail;
  }

  /** A run of waiting lines is shown one by one and each is answered with the next
      keyboard line; the client then carries on with what follows. */
  lemma {:induction false} PromptsAnswered(prompts: seq<string>, tail: seq<string>, keyboard: seq<string>)
    requires forall k :: 0 <= k < |prompts| ==> Waits(prompts[k])
    requires |prompts| <= |keyboard|
    ensures forall k :: 0 <= k < |prompts| ==> |prompts[k]| >= 6
    ensures var rest := AuthExchange(tail, keyboard[|prompts|..]);
      AuthExchange(prompts + tail, keyboard)
        == rest.(shown := Shown(prompts) + rest.shown, sent := keyboard[..|prompts|] + rest.sent)
    decreases |prompts|
  {
    if prompts == [] {
      assert prompts + tail == tail;
    } else {
      var n := |prompts|;
      Uncons(prompts, tail);
      AnswerOne(prompts[0], prompts[1..] + tail, keyboard);
      assert forall k :: 0 <= k < n - 1 ==> prompts[1..][k] == prompts[k + 1];
      PromptsAnswered(prompts[1..], tail, keyboard[1..]);
      Unshift(keyboard, n);
      var rest := AuthExchange(tail, keyboard[n..]);
      Prepend(prompts[0][6..], Shown(prompts[1..]), rest.shown);
      Prepend(keyboard[0], keyboard[1..][..n - 1], rest.sent);
      ShownCons(prompts);
    }
  }

  /** `Shown` of a non-empty run, one line at a time. */
  lemma ShownCons(lines: seq<string>)
    requires lines != [] && forall k :: 0 <= k < |lines| ==> |lines[k]| >= 6
    ensures [lines[0][6..]] + Shown(lines[1..]) == Shown(lines)
  {
  }

  /** Splitting off the first element of a non-empty sequence. */
  lemma Uncons<T>(s: seq<T>, t: seq<T>)
    requires s != []
    ensures s + t == [s[0]] + (s[1..] + t)
  {
  }

  /** The first `n` elements are the head and the first `n - 1` of the tail. */
  lemma Unshift<T>(s: seq<T>, n: nat)
    requires 0 < n <= |s|
    ensures [s[0]] + s[1..][..n - 1] == s[..n]
    ensures s[1..][n - 1..] == s[n..]
  {
  }

  /** Regrouping after a prepended element. */
  lemma Prepend<T>(x: T, a: seq<T>, b: seq<T>)
    ensures [x] + (a + b) == [x] + a + b
  {
  }

  /** The server's lines of one exchange, split into the prompts and the last line. */
  lemma WrittenShape(input: seq<string>, store: Store)
    ensures var e := Authenticate(input, store);
      && |e.written| >= 3
      && (forall k :: 0 <= k < |e.written| - 1 ==> e.written[k] in PromptLines)
      && var last := e.written[|e.written| - 1];
      && (e.outcome.Accepted? ==> last in {RegisteredReply, LoggedInReply})
      && (e.outcome.Rejected? ==> last in {NameTakenReply, InvalidReply})
  {
  }

  /** A line with a verdict ends the exchange once it is answered. */
  lemma VerdictLine(last: string, after: seq<string>, keyboard: seq<string>, v: Verdict)
    requires Reads(last, v) && v != Continue && keyboard != []
    ensures AuthExchange([last] + after, keyboard)
         == ClientAuth(Returned(v == Success), [last[6..]], [keyboard[0]], after, keyboard[1..])
  {
    assert ([last] + after)[0] == last && ([last] + after)[1..] == after;
  }

  /** Waiting lines followed by a line with a verdict: each line is answered, and the
      verdict line ends the exchange with the rest of the stream unread. */
  lemma PromptsThenVerdict(prompts: seq<string>, last: string, after: seq<string>, keyboard: seq<string>, v: Verdict)
    requires forall k :: 0 <= k < |prompts| ==> Waits(prompts[k])
    requires Reads(last, v) && v != Continue
    requires |prompts| < |keyboard|
    ensures var a := AuthExchange(prompts + [last] + after, keyboard);
      && a.end == Returned(v == Success)
      && a.sent == keyboard[..|prompts| + 1]
      && a.incoming == after
  {
    var n := |prompts|;
    Around(prompts, last, after);
    PromptsAnswered(prompts, [last] + after, keyboard);
    VerdictLine(last, after, keyboard[n..], v);
    Extend(keyboard, n);
  }

  /** Regrouping a sequence around one element. */
  lemma Around<T>(a: seq<T>, x: T, b: seq<T>)
    ensures a + [x] + b == a + ([x] + b)
  {
  }

  /** A prefix grown by the next element. */
  lemma Extend<T>(s: seq<T>, n: nat)
    requires n < |s|
    ensures s[..n] + [s[n..][0]] == s[..n + 1]
  {
  }

  /** Waiting lines followed by the end of the stream: each is answered, then the client
      fails. */
  lemma PromptsThenEnd(prompts: seq<string>, keyboard: seq<string>)
    requires forall k :: 0 <= k < |prompts| ==> Waits(prompts[k])
    requires |prompts| <= |keyboard|
    ensures var a := AuthExchange(prompts, keyboard);
      a.end == Returned(false) && a.sent == keyboard[..|prompts|]
  {
    assert prompts + [] == prompts;
    PromptsAnswered(prompts, [], keyboard);
  }

  /** Whatever the user types, a client reading the lines of a completed exchange answers
      each of them with one keyboard line and reaches the server's verdict at its last
      line: success exactly when the server admitted the session. */
  lemma ClientAgreesWithServer(input: seq<string>, store: Store, after: seq<string>, keyboard: seq<string>)
    requires !Authenticate(input, store).outcome.Crashed?
    requires |Authenticate(input, store).written| <= |keyboard|
    ensures var e := Authenticate(input, store);
      var a := AuthExchange(e.written + after, keyboard);
      && a.end == Returned(e.outcome.Accepted?)
      && a.sent == keyboard[..|e.written|]
      && a.incoming == after
  {
    var e := Authenticate(input, store);
    WrittenShape(input, store);
    PromptsKeepClientWaiting();
    var n := |e.written| - 1;
    var prompts, last := e.written[..n], e.written[n];
    assert e.written == prompts + [last];
    var v := if e.outcome.Accepted? then Success else Failure;
    if e.outcome.Accepted? {
      RegisteredSucceeds();
      LoggedInSucceeds();
    } else {
      NameTakenFails();
      InvalidCredentialsFail();
    }
    PromptsThenVerdict(prompts, last, after, keyboard, v);
  }

  /** Server prompts followed by the end of the stream: the client answers each and
      then fails. */
  lemma PromptLinesThenEnd(prompts: seq<string>, keyboard: seq<string>)
    requires forall k :: 0 <= k < |prompts| ==> prompts[k] in PromptLines
    requires |prompts| <= |keyboard|
    ensures var a := AuthExchange(prompts, keyboard);
      a.end == Returned(false) && a.sent == keyboard[..|prompts|]
  {
    PromptsKeepClientWaiting();
    PromptsThenEnd(prompts, keyboard);
  }

  /** An aborted exchange writes prompts only. */
  lemma AbortWritesOnlyPrompts(input: seq<string>, store: Store)
    requires Authenticate(input, store).outcome.Crashed?
    ensures var w := Authenticate(input, store).written;
      forall k :: 0 <= k < |w| ==> w[k] in PromptLines
  {
  }

  /** When the server aborts on a stored null password it has written only prompts and then
      closes the connection: the client answers them all and then fails at the end of the
      stream. */
  lemma ClientFailsWhenServerAborts(input: seq<string>, store: Store, keyboard: seq<string>)
    requires Authenticate(input, store).outcome.Crashed?
    requires |Authenticate(input, store).written| <= |keyboard|
    ensures var e := Authenticate(input, store);
      var a := AuthExchange(e.written, keyboard);
      && a.end == Returned(false)
      && a.sent == keyboard[..|e.written|]
  {
    AbortWritesOnlyPrompts(input, store);
    PromptLinesThenEnd(Authenticate(input, store).written, keyboard);
  }
}
