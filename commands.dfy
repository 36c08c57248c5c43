/** The routing decision of `ClientHandler.handleCommand`, and the fixed replies it and the
    welcome message send. */
module Commands {
  import opened Text

  /** What a `/`-prefixed line asks for. */
  datatype Command =
    | ShareFile(path: string)  // `/file` followed by an argument (possibly empty)
    | FileUsage                // `/file` alone
    | ListUsers                // `/users`
    | Quit                     // `/quit`
    | Help                     // any other command word

  const UsageReply := "Usage: /file <filepath>"

  /** The command summary, sent in the welcome message and after an unknown command. */
  const CommandSummary := ["/file <filepath> - Send a file", "/users - List connected users", "/quit - Exit the chat"]

  const HelpReply := ["Unknown command. Available commands:"] + CommandSummary

  /** `handleCommand`: split once on whitespace, lower-case the command word only, switch.
      The command word is the head of the line, matched ignoring case; the `/file` path is
      the tail of the line exactly as typed, and `/file` alone is the whole line. */
  function Route(message: string): (c: Command)
    ensures c.ShareFile? ==>
      && |c.path| < |message| && message[|message| - |c.path|..] == c.path
      && |message| >= 5 && ToLower(message[..5]) == "/file"
    ensures c == FileUsage ==> ToLower(message) == "/file"
    ensures c == ListUsers ==> |message| >= 6 && ToLower(message[..6]) == "/users"
    ensures c == Quit ==> |message| >= 5 && ToLower(message[..5]) == "/quit"
  {
    var parts := SplitOnce(message);
    var word := ToLower(parts.first);
    if word == "/file" then
      if parts.rest.Some? then ShareFile(parts.rest.value) else FileUsage
    else if word == "/users" then ListUsers
    else if word == "/quit" then Quit
    else Help
  }

  /** A word followed by whitespace and an argument is routed by the lower-cased word
      alone; the argument of `/file` is passed on exactly as typed. */
  lemma RouteWithArgument(word: string, gap: string, arg: string)
    requires forall k :: 0 <= k < |word| ==> !IsSpace(word[k])
    requires gap != [] && forall k :: 0 <= k < |gap| ==> IsSpace(gap[k])
    requires arg == [] || !IsSpace(arg[0])
    ensures ToLower(word) == "/file" ==> Route(word + gap + arg) == ShareFile(arg)
    ensures ToLower(word) == "/users" ==> Route(word + gap + arg) == ListUsers
    ensures ToLower(word) == "/quit" ==> Route(word + gap + arg) == Quit
    ensures ToLower(word) !in {"/file", "/users", "/quit"} ==> Route(word + gap + arg) == Help
  {
    SplitRecoversWordAndArgument(word, gap, arg);
  }

  /** A line without whitespace is all command word: `/file` alone gets the usage reply. */
  lemma RouteBareWord(word: string)
    requires forall k :: 0 <= k < |word| ==> !IsSpace(word[k])
    ensures ToLower(word) == "/file" ==> Route(word) == FileUsage
    ensures ToLower(word) == "/users" ==> Route(word) == ListUsers
    ensures ToLower(word) == "/quit" ==> Route(word) == Quit
    ensures ToLower(word) !in {"/file", "/users", "/quit"} ==> Route(word) == Help
  {
  }

  /** Worked cases: case is ignored in the word only, and a trailing space after `/file`
      makes an empty argument rather than the usage reply. */
  lemma RouteQuitAnyCase()
    ensures Route("/QuIt") == Quit
  {
  }

  lemma RouteFileKeepsArgumentCase()
    ensures Route("/FILE My Notes.TXT") == ShareFile("My Notes.TXT")
  {
    assert "/FILE" + " " + "My Notes.TXT" == "/FILE My Notes.TXT";
    assert ToLower("/FILE") == "/file";
    RouteWithArgument("/FILE", " ", "My Notes.TXT");
  }

  lemma RouteFileTrailingSpace()
    ensures Route("/file ") == ShareFile("")
  {
  }
}
