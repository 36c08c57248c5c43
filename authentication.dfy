/** The server side of the `/auth` exchange (`ClientHandler.handleAuthentication`) and the
    credential store it reads and writes (`ChatServer.userCredentials`). */
module Authentication {
  import opened Text

  /** `HashMap<String, String>` from username to password; both may be null. */
  type Store = map<Nullable, Nullable>

  /** The shared credential store. It is only ever looked up and added to. */
  class CredentialStore {
    var entries: Store

    constructor ()
      ensures entries == map[]
    {
      entries := map[];
    }

    /** `userCredentials.put(name, password)` */
    method Put(name: Nullable, password: Nullable)
      modifies this
      ensures entries == old(entries)[name := password]
    {
      entries := entries[name := password];
    }
  }

  /** The reserved prefix of every line the server writes during authentication. */
  const AuthTag := "/auth "

  const ChoosePrompt := AuthTag + "Choose action (1: Login, 2: Register):"
  const NewNamePrompt := AuthTag + "Enter new username:"
  const NamePrompt := AuthTag + "Enter username:"
  const PasswordPrompt := AuthTag + "Enter password:"
  const NameTakenReply := AuthTag + "Username already exists!"
  const RegisteredReply := AuthTag + "Registration successful! Press Enter to Continue."
  const LoggedInReply := AuthTag + "Login successful!"
  const InvalidReply := AuthTag + "Invalid credentials!"

  /** The lines that end an exchange. */
  const OutcomeLines := {NameTakenReply, RegisteredReply, LoggedInReply, InvalidReply}

  /** How an exchange ends: admitted under a name, refused, or aborted by the
      `NullPointerException` of `get(name).equals(password)` when the stored password is null. */
  datatype Outcome = Accepted(name: Nullable) | Rejected | Crashed

  /** One run of the exchange: how it ended, what the server wrote to the connection,
      the credential store afterwards, and the input lines not yet read. */
  datatype Exchange = Exchange(outcome: Outcome, written: seq<string>, store: Store, rest: seq<string>)

  /** `in.readLine()`: the next line, or null once the input is exhausted. */
  function ReadLine(input: seq<string>): (line: Nullable)
    ensures line.Null? <==> input == []
    ensures input != [] ==> line.value == input[0]
  {
    if input == [] then Null else Str(input[0])
  }

  /** The input after one `readLine`; reading past the end reads nothing. */
  function Consume(input: seq<string>): (rest: seq<string>)
    ensures input != [] ==> rest == input[1..]
    ensures input == [] ==> rest == []
  {
    if input == [] then [] else input[1..]
  }

  /** `rest` is what is left of `input` after reading at most `n` lines from its front. */
  predicate ReadsAtMost(input: seq<string>, rest: seq<string>, n: nat) {
    |rest| <= |input| <= |rest| + n && rest == input[|input| - |rest|..]
  }

  /** `handleAuthentication`: the choice line, then the register or the login branch.
      It reads at most three lines, opens with the choice prompt, only ever adds to the
      store, and can abort only on the login path. */
  function Authenticate(input: seq<string>, store: Store): (e: Exchange)
    ensures |e.rest| <= |input|
    ensures e.written != [] && e.written[0] == ChoosePrompt
    ensures store.Keys <= e.store.Keys
    ensures e.outcome.Crashed? ==> ReadLine(input) != Str("2")
  {
    var choice := ReadLine(input);
    var afterChoice := Consume(input);
    var e := if choice == Str("2") then Register(afterChoice, store) else Login(afterChoice, store);
    e.(written := [ChoosePrompt] + e.written)
  }

  /** The register branch, after the choice `"2"` has been read; `written` leaves out
      the choice prompt. */
  function Register(input: seq<string>, store: Store): (e: Exchange)
    ensures e.written != [] && e.written[0] == NewNamePrompt
    ensures e.outcome.Rejected? <==> ReadLine(input) in store
    ensures e.outcome.Rejected? ==> e.store == store
    ensures e.outcome.Accepted? ==> e.outcome.name == ReadLine(input) && e.outcome.name in e.store
    ensures !e.outcome.Crashed?
  {
    var name := ReadLine(input);
    var afterName := Consume(input);
    if name in store then
      Exchange(Rejected, [NewNamePrompt, NameTakenReply], store, afterName)
    else
      var password := ReadLine(afterName);
      Exchange(Accepted(name), [NewNamePrompt, PasswordPrompt, RegisteredReply],
               store[name := password], Consume(afterName))
  }

  /** The login branch, taken for any choice other than exactly `"2"`; `written` leaves
      out the choice prompt. */
  function Login(input: seq<string>, store: Store): (e: Exchange)
    ensures e.written != [] && e.written[0] == NamePrompt
    ensures e.store == store
    ensures e.outcome.Accepted? ==> e.outcome.name == ReadLine(input) && e.outcome.name in store
  {
    var name := ReadLine(input);
    var password := ReadLine(Consume(input));
    var rest := Consume(Consume(input));
    var prompts := [NamePrompt, PasswordPrompt];
    if name in store && store[name].Null? then
      Exchange(Crashed, prompts, store, rest)
    else if name in store && store[name] == password then
      Exchange(Accepted(name), prompts + [LoggedInReply], store, rest)
    else
      Exchange(Rejected, prompts + [InvalidReply], store, rest)
  }

  /** Registering a name that is already a key is refused with "already exists", after
      reading only the choice and the name, and leaves the store as it was. */
  lemma RegisterTakenNameRefused(name: string, rest: seq<string>, store: Store)
    requires Str(name) in store
    ensures Authenticate(["2", name] + rest, store)
         == Exchange(Rejected, [ChoosePrompt, NewNamePrompt, NameTakenReply], store, rest)
  {
    assert (["2", name] + rest)[1..] == [name] + rest;
    assert ([name] + rest)[1..] == rest;
  }

  /** Registering a fresh name adds exactly that entry, with the password read next,
      changes no other entry, and admits the session under that name. */
  lemma RegisterFreshNameAdded(name: string, password: string, rest: seq<string>, store: Store)
    requires Str(name) !in store
    ensures var e := Authenticate(["2", name, password] + rest, store);
      && e.outcome == Accepted(Str(name))
      && e.store.Keys == store.Keys + {Str(name)}
      && e.store[Str(name)] == Str(password)
      && (forall k :: k in store ==> e.store[k] == store[k])
      && e.written[|e.written| - 1] == RegisteredReply
      && e.rest == rest
  {
    assert (["2", name, password] + rest)[1..] == [name, password] + rest;
    assert ([name, password] + rest)[1..] == [password] + rest;
    assert ([password] + rest)[1..] == rest;
  }

  /** A registration whose input ends before the password stores the name with a null
      password and admits the session; any later login under that name aborts on the
      null password, whatever password it supplies. */
  lemma RegisterWithoutPassword(name: string, store: Store, password: string, rest: seq<string>)
    requires Str(name) !in store
    ensures var e := Authenticate(["2", name], store);
      && e.outcome == Accepted(Str(name))
      && e.store == store[Str(name) := Null]
      && Authenticate(["1", name, password] + rest, e.store).outcome == Crashed
  {
    assert ["2", name][1..] == [name];
    assert (["1", name, password] + rest)[1..] == [name, password] + rest;
  }

  /** A registration whose input ends right after the choice `"2"` registers the null name
      with a null password; a later login whose input ends right after its choice reads
      the null name again and aborts. */
  lemma RegisterAtEndOfInput(store: Store)
    requires Null !in store
    ensures var e := Authenticate(["2"], store);
      && e.outcome == Accepted(Null)
      && e.store == store[Null := Null]
      && Authenticate(["1"], e.store).outcome == Crashed
  {
  }

  /** Any choice other than exactly `"2"` (null included) takes the login path: the store
      is unchanged, and the session is admitted exactly when the name is a key whose stored
      password equals the supplied one. */
  lemma LoginAdmitsExactlyMatchingPassword(input: seq<string>, store: Store)
    requires ReadLine(input) != Str("2")
    ensures var e := Authenticate(input, store);
      var name := ReadLine(Consume(input));
      var password := ReadLine(Consume(Consume(input)));
      && e.store == store
      && (e.outcome.Accepted? <==> name in store && store[name].Str? && store[name] == password)
      && (e.outcome.Accepted? ==> e.outcome.name == name)
      && (e.outcome.Crashed? <==> name in store && store[name].Null?)
  {
  }

  /** Only the register branch changes the store, and only by adding a key that was absent. */
  lemma StoreOnlyGrows(input: seq<string>, store: Store)
    ensures var e := Authenticate(input, store);
      && store.Keys <= e.store.Keys
      && (forall k :: k in store ==> e.store[k] == store[k])
      && (e.store != store ==> ReadLine(input) == Str("2") && e.outcome.Accepted? && e.outcome.name !in store)
  {
  }

  /** The prompts that ask for a reply. */
  const PromptLines := {ChoosePrompt, NewNamePrompt, NamePrompt, PasswordPrompt}

  /** Every prompt and every outcome line starts with the tag. */
  lemma AllLinesTagged()
    ensures forall line :: line in PromptLines + OutcomeLines ==> StartsWith(line, AuthTag)
  {
    forall line | line in PromptLines + OutcomeLines
      ensures StartsWith(line, AuthTag)
    {
      assert line[..|AuthTag|] == AuthTag;
    }
  }

  /** No prompt is an outcome line (they differ in length). */
  lemma PromptsAreNotOutcomes()
    ensures forall line :: line in PromptLines ==> line !in OutcomeLines
  {
    assert |ChoosePrompt| == 44 && |NewNamePrompt| == 25 && |NamePrompt| == 21 && |PasswordPrompt| == 21;
    assert |NameTakenReply| == 30 && |RegisteredReply| == 55 && |LoggedInReply| == 23 && |InvalidReply| == 26;
  }

  /** Every line written during the exchange carries the `/auth ` tag; the last one, and
      only the last one, is an outcome line, unless the exchange aborted, in which case
      no outcome line is written at all. */
  lemma ExchangeLinesTagged(input: seq<string>, store: Store)
    ensures var e := Authenticate(input, store);
      && (forall line :: line in e.written ==> StartsWith(line, AuthTag))
      && |e.written| >= 3
      && (forall k :: 0 <= k < |e.written| - 1 ==> e.written[k] in PromptLines)
      && (e.outcome.Crashed? <==> e.written[|e.written| - 1] !in OutcomeLines)
  {
    AllLinesTagged();
    PromptsAreNotOutcomes();
    WrittenCases(input, store);
    var e := Authenticate(input, store);
    assert forall line :: line in e.written ==> line in PromptLines + OutcomeLines;
  }

  /** The five line sequences an exchange can write, one for each way it can end. */
  lemma WrittenCases(input: seq<string>, store: Store)
    ensures var e := Authenticate(input, store);
      || (e.outcome.Rejected? && e.written == [ChoosePrompt, NewNamePrompt, NameTakenReply])
      || (e.outcome.Accepted? && e.written == [ChoosePrompt, NewNamePrompt, PasswordPrompt, RegisteredReply])
      || (e.outcome.Crashed? && e.written == [ChoosePrompt, NamePrompt, PasswordPrompt])
      || (e.outcome.Accepted? && e.written == [ChoosePrompt, NamePrompt, PasswordPrompt, LoggedInReply])
      || (e.outcome.Rejected? && e.written == [ChoosePrompt, NamePrompt, PasswordPrompt, InvalidReply])
  {
  }

  /** The exchange reads a prefix of at most three lines: the choice, a name and a
      password; registering a taken name reads only two. */
  lemma ReadsAtMostThreeLines(input: seq<string>, store: Store)
    ensures var e := Authenticate(input, store);
      && ReadsAtMost(input, e.rest, 3)
      && (e.outcome.Rejected? && ReadLine(input) == Str("2") ==> ReadsAtMost(input, e.rest, 2))
  {
    var after := Consume(input);
    var e := if ReadLine(input) == Str("2") then Register(after, store) else Login(after, store);
    BranchReadsAtMostTwoLines(after, store);
    if input != [] {
      ReadsFromTail(input, e.rest, 2);
      if e.outcome.Rejected? && ReadLine(input) == Str("2") {
        ReadsFromTail(input, e.rest, 1);
      }
    }
  }

  /** Each branch reads at most a name and a password; a taken name is all it reads. */
  lemma BranchReadsAtMostTwoLines(input: seq<string>, store: Store)
    ensures ReadsAtMost(input, Login(input, store).rest, 2)
    ensures ReadsAtMost(input, Register(input, store).rest, 2)
    ensures Register(input, store).outcome.Rejected? ==> ReadsAtMost(input, Register(input, store).rest, 1)
  {
    if input != [] {
      ReadsFromTail(input, Consume(input[1..]), 1);
    }
  }

  /** Reading `n` lines after the first is reading `n + 1` lines. */
  lemma ReadsFromTail(input: seq<string>, rest: seq<string>, n: nat)
    requires input != [] && ReadsAtMost(input[1..], rest, n)
    ensures ReadsAtMost(input, rest, n + 1)
  {
    assert input[1..][|input| - 1 - |rest|..] == input[|input| - |rest|..];
  }

  /** The session's username is the name read from the connection, and only an admitted
      exchange names anyone. */
  lemma AcceptedNameWasRead(input: seq<string>, store: Store)
    ensures var e := Authenticate(input, store);
      e.outcome.Accepted? ==> |input| >= 1 && e.outcome.name == ReadLine(input[1..])
  {
  }
}
