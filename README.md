# Chat server and client: a Dafny model

A multi-user chat over TCP, in Java. A `ChatServer` accepts connections and gives each
one its own `ClientHandler` thread. The handler runs the `/auth` exchange:

- it asks the client to log in or to register;
- it checks or records the credentials in a shared `HashMap`.

An admitted session then joins a shared `HashSet` of handlers, is announced to everyone
and gets a welcome text. From then on, each line it sends is either a command or a chat
line:

- `/file <path>` copies a file into `uploads/` and announces it;
- `/users` lists the connected users;
- `/quit` leaves;
- any other command gets the help text;
- a line that does not start with `/` is a chat line, broadcast to every registered session.

Whichever way the session ends, `disconnect` removes the session and tells the others
that it left.

The `ChatClient` reads `/auth` prompts from the server, shows them and answers each one
with a keyboard line. After a successful exchange it forwards keyboard lines to the
server until the user types `/quit`.

The model has eight modules, one per file:

- `Text` (`text.dfy`): the Java string operations the code relies on:
  - `null` strings and how concatenation renders them (`"null"`);
  - `startsWith` and `contains`;
  - `toLowerCase` on ASCII;
  - `equalsIgnoreCase`;
  - `split("\\s+", 2)`.
- `Registry` (`registry.dfy`): the shared set of handlers and the output stream of every
  connection.
  - The value `Roster` holds, per session, the username it carries and every line written
    to its stream.
  - The class `Registry` keeps that state and has the loops of `broadcast` and
    `sendUserList`.
  - `HashSet` iteration order is a parameter, `enumerate`. It may list each element in any
    order, exactly once.
- `Authentication` (`authentication.dfy`): the server side of the `/auth` exchange as a
  function, plus the credential store as a class.
  - The `NullPointerException` thrown by `get(name).equals(password)` for a stored null
    password is the outcome `Crashed`.
- `Commands` (`commands.dfy`): the routing decision of `handleCommand` and its fixed replies.
- `Session` (`session.dfy`): what one connection's `run` does to the shared state, as
  functions. It covers authentication, joining, the message loop and `disconnect`.
- `Handler` (`handler.dfy`): the class `ClientHandler`. Each method is proved to follow
  the `Session` functions.
  - `HandleAuthentication`, `Broadcast`, `Disconnect`, `SendUserList`,
    `HandleFileTransfer`, `HandleCommand` and `Run` are the Java methods of the same name.
  - Some methods are parts of one Java method:
    - `HandleRegistration` and `HandleLogin` are the two branches of `handleAuthentication`;
    - `EnterChat`, `SendWelcome` and `MessageLoop` are parts of `run`;
    - `SendHelp` is the `default` case of `handleCommand`.
  - `ReadLine` and `Println` stand for the library calls `in.readLine()` and
    `out.println`.
- `Client` (`client.dfy`): the class `ChatClient`.
  - Its `handleAuthentication` is proved to follow the function `AuthExchange`.
  - Its sending loop is proved to follow `Forward`.
  - The constructor's body is proved to follow `Lifetime`.
- `Handshake` (`handshake.dfy`): the two ends of the `/auth` exchange put together. Whatever
  the user types, a client reading the server's lines reaches the server's verdict.

A connection's input is the sequence of lines the peer sends. The end of that sequence is
the end of the stream, where `readLine` returns null. The file copy of `/file` is the
parameter `fs: string -> Transfer`. For a path, it reports that the file is missing, that
the copy threw an `IOException` with some message, or the name under which it was copied.

Every line that does not start with `/` is broadcast, the empty line included
(ChatServer.java:80-86). The client answers every `/auth` line it shows, the success line
included (ChatClient.java:54-56). So after "Registration successful! Press Enter to
Continue." or "Login successful!", the line the user types next is sent to the server.
Unless it starts with `/`, the server broadcasts it as the session's first chat line.

## Model

| member | source | states |
|---|---|---|
| Text.Show | ChatServer.java:225 | a string renders as itself in a concatenation, and null renders as `null` |
| Text.ToLower | ChatServer.java:134 | lower-casing keeps the length and lowers each ASCII letter in place |
| Text.StartsWithByIndex | ChatServer.java:81 | `startsWith` holds exactly when the prefix fits and matches character by character; a prefix is also contained |
| Text.ContainsBounds | ChatClient.java:59-62 | a contained string is no longer than its container; the empty string is contained in every string |
| Text.EqualsIgnoreCaseByChar | ChatClient.java:33 | `equalsIgnoreCase` holds exactly when the lengths agree and every pair of characters is equal once lowered |
| Text.SplitOnce | ChatServer.java:133 | the first part has no whitespace; without a whitespace run it is the whole line; otherwise the line is the first part, a non-empty whitespace run and the rest, and the rest does not start with whitespace |
| Text.SplitRecoversWordAndArgument | ChatServer.java:133 | splitting a word, a whitespace run and an argument gives back exactly the word and the argument |
| Registry.Write | ChatServer.java:203 | `println` on one connection appends that line to its stream and changes nothing else |
| Registry.WriteAll | ChatServer.java:73-76 | several `println` calls on one connection append the lines in order and change nothing else |
| Registry.Deliver | ChatServer.java:207-213 | every stream of a recipient gets the message appended; every other stream is unchanged |
| Registry.Fanout | ChatServer.java:207-213 | a broadcast delivers to exactly the registered sessions, the sender included, and leaves the registry as it was |
| Registry.Join | ChatServer.java:68 | `clients.add` registers the session under its username, keeps every other session's username, and touches no stream |
| Registry.Leave | ChatServer.java:223 | `clients.remove` unregisters exactly this session, keeps every other session's username, and touches no stream |
| Registry.UserLinesNameEveryone | ChatServer.java:199-201 | every session of the iteration has its `- name` entry in the list |
| Registry.ListingNamesEveryMember | ChatServer.java:196-204 | whatever the iteration order, the `/users` text starts with the header and names every registered session |
| Registry.LeaveIdempotent | ChatServer.java:223 | removing twice is removing once; removing an unregistered session changes nothing |
| Registry.Registry.constructor | ChatServer.java:8 | the shared set starts empty, with no stream open |
| Registry.Registry.Open | ChatServer.java:52 | accepting a connection opens an empty stream for it and registers nobody |
| Registry.Registry.Send | ChatServer.java:210 | one `println` appends one line to one stream |
| Registry.Registry.Add | ChatServer.java:68 | the method has the effect of `Join` |
| Registry.Registry.Remove | ChatServer.java:223 | the method has the effect of `Leave` |
| Registry.Registry.Broadcast | ChatServer.java:207-213 | one pass over the set, in iteration order, has the effect of `Fanout` |
| Registry.Registry.UserList | ChatServer.java:196-202 | the text built in iteration order is the header plus one entry per registered session, and it names every registered session |
| Authentication.CredentialStore.constructor | ChatServer.java:10 | the credential map starts empty |
| Authentication.CredentialStore.Put | ChatServer.java:109 | `put` maps the name to the password and keeps every other entry |
| Authentication.ReadLine | ChatServer.java:98 | `readLine` gives null exactly at the end of the input, otherwise the next line |
| Authentication.Consume | ChatServer.java:98 | `readLine` consumes one line, and nothing at the end of the input |
| Authentication.Authenticate | ChatServer.java:96-129 | the exchange opens with the choice prompt, reads no more lines than there are, never removes a key, and aborts only on the login path; its effects are stated by the lemmas below |
| Authentication.Register | ChatServer.java:100-112 | the register branch opens with its prompt, refuses exactly when the name read is a key (keeping the store), admits under the name read otherwise, and never aborts |
| Authentication.Login | ChatServer.java:113-128 | the login branch opens with the username prompt, never changes the store, and admits only a name read that is a key |
| Authentication.ReadsAtMostThreeLines | ChatServer.java:98-117 | the exchange consumes a prefix of at most three input lines, and a refused registration at most two |
| Authentication.WrittenCases | ChatServer.java:96-129 | the exchange writes one of exactly five line sequences, one per way it can end |
| Authentication.RegisterWithoutPassword | ChatServer.java:107-120 | input ending after the name registers it with a null password, and any later login under that name aborts |
| Authentication.RegisterAtEndOfInput | ChatServer.java:98-120 | input ending after the choice `"2"` registers the null name with a null password, and a later login whose input ends after its choice aborts |
| Authentication.RegisterTakenNameRefused | ChatServer.java:100-106 | registering an existing name writes "already exists" after reading only the choice and the name, refuses, and leaves the store unchanged |
| Authentication.RegisterFreshNameAdded | ChatServer.java:107-112 | registering a fresh name adds exactly that entry with the password read next, keeps every other entry, admits the session under that name, and ends with the success line |
| Authentication.LoginAdmitsExactlyMatchingPassword | ChatServer.java:113-128 | any choice but `"2"` logs in; it admits exactly when the name is a key whose stored password equals the supplied one, and under that name; it aborts exactly when the stored password is null; it never changes the store |
| Authentication.StoreOnlyGrows | ChatServer.java:96-129 | the exchange never removes or changes an entry; the store changes only when a registration admits a name that was absent |
| Authentication.AllLinesTagged | ChatServer.java:97-125 | every prompt and every outcome line starts with `/auth ` |
| Authentication.PromptsAreNotOutcomes | ChatServer.java:97-125 | no prompt is also an outcome line |
| Authentication.ExchangeLinesTagged | ChatServer.java:96-129 | every line written is tagged; at least three lines are written; all lines before the last are prompts; the last is an outcome line exactly when the exchange did not abort |
| Authentication.AcceptedNameWasRead | ChatServer.java:100-128 | an admitted session's username is the second line it sent |
| Commands.Route | ChatServer.java:132-158 | the command word is the head of the line matched ignoring case; the `/file` path is the tail of the line as typed; `/file` alone is the whole line |
| Commands.RouteWithArgument | ChatServer.java:132-158 | for a word, whitespace and an argument, the lower-cased word alone selects the case, and `/file` gets the argument as typed |
| Commands.RouteBareWord | ChatServer.java:132-158 | a line without whitespace is all command word, and `/file` alone gets the usage reply |
| Commands.RouteQuitAnyCase | ChatServer.java:134 | `/QuIt` is routed to quit: case is ignored in the command word |
| Commands.RouteFileKeepsArgumentCase | ChatServer.java:133-139 | `/FILE My Notes.TXT` shares `My Notes.TXT`: the argument keeps its case and its inner space |
| Commands.RouteFileTrailingSpace | ChatServer.java:133-139 | `/file ` shares the empty path instead of getting the usage reply |
| Session.Disconnect | ChatServer.java:221-230 | `disconnect` unregisters the session and opens or closes no stream |
| Session.DisconnectNotifiesOthers | ChatServer.java:221-230 | every other registered session gets the leave notice; the leaver and the unregistered connections get nothing; the remaining names are kept |
| Session.DisconnectExtends | ChatServer.java:221-230 | `disconnect` only appends to streams |
| Session.DisconnectTwice | ChatServer.java:221-230 | disconnecting twice unregisters once and announces the leave twice to every other session |
| Session.FileTransfer | ChatServer.java:162-193 | a missing file appends `File not found: path` and a failed copy `Error sending file: reason` to the issuer's stream only; a copy appends `name shared file: fileName` to every registered session and leaves unregistered connections untouched; registrations are unchanged |
| Session.Admitted | ChatServer.java:68-93 | after join, welcome, the message loop and `disconnect`, the session is unregistered and every other session keeps its registration and username |
| Session.Execute | ChatServer.java:132-158 | a command keeps every stream open; it closes the socket exactly when it unregisters the session, and otherwise leaves the registry unchanged |
| Session.Handle | ChatServer.java:80-86 | one line read keeps the streams, and changes the registry only when it closes the socket |
| Session.HandleExtends | ChatServer.java:80-86 | one handled line only appends to streams |
| Session.Converse | ChatServer.java:80-87 | the message loop changes no other session's registration |
| Session.ConverseExtends | ChatServer.java:80-87 | the message loop never takes back a line already written |
| Session.Run | ChatServer.java:61-93 | `run` keeps the registry consistent and opens or closes no stream |
| Session.ChatLineReachesEveryone | ChatServer.java:84-85 | a line not starting with `/`, the empty line included, reaches every registered session as `name: line`, and reaches nobody else |
| Session.RepliesReachIssuerOnly | ChatServer.java:132-158 | the usage reply, a missing file, a failed copy, `/users` and an unknown command reach only the issuer; the registry is unchanged |
| Session.UsersReplyNamesEveryone | ChatServer.java:196-204 | `/users` sends the issuer one line that starts with the header and names every registered session |
| Session.SharedFileAnnounced | ChatServer.java:185-187 | a copied file is announced to every registered session as `name shared file: fileName`, and to no connection that has not registered |
| Session.QuitStopsReading | ChatServer.java:80-93 | after `/quit` nothing more is read: the loop ends with that one disconnect (no line is taken to be buffered after `/quit`) |
| Session.AnonymousDisconnect | ChatServer.java:221-230 | an unregistered session's `disconnect` tells every registered session "null has left the chat!" and changes nobody's registration |
| Session.FailedAuthenticationNeverJoins | ChatServer.java:61-93 | a refused or aborted exchange never registers the session or changes the store; its stream holds just the `/auth` lines, and every registered session is still told "null has left the chat!" |
| Session.JoinThenWelcome | ChatServer.java:68-76 | the newcomer is registered before the broadcast, so it gets its own join notice and then the welcome; the others get the join notice |
| Session.AdmittedHearsOwnJoin | ChatServer.java:68-93 | after admission, the session's stream starts with its join notice and the welcome; every other registered session's next line is the join notice; the session ends unregistered |
| Session.AdmittedSessionHearsOwnJoin | ChatServer.java:61-93 | over the whole of `run`, the session's stream shows the `/auth` lines, its join notice and the welcome in that order; the store is the one the exchange left |
| Session.AdmittedQuitLeavesTwice | ChatServer.java:80-93 | `/quit` as the first line: every other session gets the join notice and then the leave notice twice |
| Session.QuitAnnouncesLeaveTwice | ChatServer.java:61-93 | over the whole of `run`: the explicit `disconnect` of `/quit` and the one in `finally` each announce the leave |
| Handler.ClientHandler.constructor | ChatServer.java:47-57 | a new handler opens its connection's stream, starts logged out and registers nobody |
| Handler.ClientHandler.ReadLine | ChatServer.java:98 | reads and consumes the next line, or null at the end of the input |
| Handler.ClientHandler.Println | ChatServer.java:97 | appends one line to this connection's stream only |
| Handler.ClientHandler.HandleAuthentication | ChatServer.java:96-129 | the outcome, the store, the unread input, the lines written and the username are those of `Authenticate` |
| Handler.ClientHandler.HandleRegistration | ChatServer.java:100-112 | the register branch does what `Register` describes |
| Handler.ClientHandler.HandleLogin | ChatServer.java:113-128 | the login branch does what `Login` describes, with the null-password abort |
| Handler.ClientHandler.Broadcast | ChatServer.java:207-213 | the method has the effect of `Fanout` |
| Handler.ClientHandler.Disconnect | ChatServer.java:221-230 | the method closes the socket and has the effect of `Session.Disconnect` |
| Handler.ClientHandler.SendUserList | ChatServer.java:196-204 | the issuer's stream gets the listing of the set as it was, in iteration order |
| Handler.ClientHandler.HandleFileTransfer | ChatServer.java:162-193 | a missing file or a failed copy is reported to the issuer; a copy is announced to everyone |
| Handler.ClientHandler.SendHelp | ChatServer.java:153-157 | the issuer gets the four help lines, in order |
| Handler.ClientHandler.HandleCommand | ChatServer.java:132-158 | the method does what `Execute` describes, and the socket is closed exactly after `/quit` |
| Handler.ClientHandler.Run | ChatServer.java:61-93 | the store and the registry end as `Session.Run` describes, and the socket is closed |
| Handler.ClientHandler.EnterChat | ChatServer.java:68-76 | register, broadcast the join notice, then write the welcome to this connection |
| Handler.ClientHandler.SendWelcome | ChatServer.java:73-76 | this connection gets the four welcome lines, in order |
| Handler.ClientHandler.MessageLoop | ChatServer.java:78-87 | the loop leaves the registry as `Converse` describes |
| Client.Classify | ChatClient.java:59-64 | success exactly when the prompt contains "successful"; otherwise failure exactly when it contains "Invalid credentials" or "already exists" |
| Client.AuthExchange | ChatClient.java:49-68 | never more replies sent than prompts shown; its behaviour is stated by `ExchangeReadsPrefix`, `SkipsUnmarkedLines`, `OneReplyPerPrompt`, `VerdictComesFromLastPrompt` and `BareMarkerThrows` |
| Client.Forward | ChatClient.java:31-40 | never more lines sent than typed; its behaviour is stated by `ForwardReadsPrefix`, `ForwardStopsAtFirstQuit` and `ForwardWithoutQuit` |
| Client.ExchangeReadsPrefix | ChatClient.java:49-68 | `handleAuthentication` reads a prefix of the server's lines and of the keyboard, and shows at most one prompt per server line read |
| Client.ForwardReadsPrefix | ChatClient.java:31-40 | the sending loop reads a prefix of the keyboard, sends one line per line read, and stops early only after sending `/quit` |
| Client.Lifetime | ChatClient.java:13-46 | the client never sends more lines than were typed, and a failed exchange ends the console with the failure notice |
| Client.SkipsUnmarkedLines | ChatClient.java:51-52 | server lines without the `/auth` marker are skipped, however many there are |
| Client.OneReplyPerPrompt | ChatClient.java:51-57 | the replies sent are the first keyboard lines, in order, one per prompt shown; only a keyboard that runs out leaves a prompt unanswered |
| Client.VerdictComesFromLastPrompt | ChatClient.java:58-67 | every prompt before the last is undecided; success comes from a prompt with "successful"; failure comes from a failure prompt or from the end of the stream |
| Client.BareMarkerThrows | ChatClient.java:52-53 | a line that is exactly `/auth` makes `substring(6)` throw |
| Client.ForwardStopsAtFirstQuit | ChatClient.java:31-40 | every line before the first `/quit` (in any case) is forwarded as typed; then the literal `/quit` is sent, and nothing after it is read |
| Client.ForwardWithoutQuit | ChatClient.java:31-40 | without a `/quit`, every keyboard line is forwarded and the loop ends only when the keyboard runs out |
| Client.ChatClient.constructor | ChatClient.java:13-19 | a new client is running, has printed and sent nothing, and holds both inputs |
| Client.ChatClient.HandleAuthentication | ChatClient.java:49-68 | the result, the console, the lines sent and the lines left unread are those of `AuthExchange` |
| Client.ChatClient.SendLoop | ChatClient.java:31-40 | the lines sent and the keyboard left are those of `Forward`; the client is still running exactly when the keyboard ran out |
| Client.ChatClient.Run | ChatClient.java:13-46 | the console and the lines sent are those of `Lifetime`; the connection ends closed |
| Client.ChatClient.CloseConnection | ChatClient.java:85-92 | stops the client and closes the socket, and nothing else |
| Handshake.PromptsKeepClientWaiting | ChatClient.java:52-64 | each of the server's four prompts passes the marker test and leaves the client undecided |
| Handshake.RegisteredSucceeds | ChatClient.java:59-61 | the server's registration line makes the client succeed |
| Handshake.LoggedInSucceeds | ChatClient.java:59-61 | the server's login line makes the client succeed |
| Handshake.NameTakenFails | ChatClient.java:62-64 | the server's "already exists" line makes the client fail |
| Handshake.InvalidCredentialsFail | ChatClient.java:62-64 | the server's "Invalid credentials" line makes the client fail |
| Handshake.PromptsAnswered | ChatClient.java:51-57 | undecided lines are each shown with the tag removed and answered with the next keyboard line |
| Handshake.WrittenShape | ChatServer.java:96-129 | all lines before the last are prompts; an admitted exchange ends with a success line, a refused one with a failure line |
| Handshake.ClientAgreesWithServer | ChatClient.java:49-68 | whatever the user types, a client reading a completed exchange answers every line and succeeds exactly when the server admitted it; the lines after the exchange are left unread |
| Handshake.AbortWritesOnlyPrompts | ChatServer.java:113-120 | an exchange that aborts on a null stored password has written prompts only |
| Handshake.ClientFailsWhenServerAborts | ChatClient.java:49-68 | after an abort, the client answers every prompt and then fails at the end of the stream |

## Left out

- Sockets and threads are not modelled. Each connection's input is a given sequence of
  lines. The sessions are not interleaved, so races are out of scope: between handlers, on
  the unsynchronized `userCredentials` map, and between the client's two threads.
- `ChatServer.main` and its accept loop are not modelled, nor is `printServerMessage`.
  Connections are opened one by one with `Registry.Open`.
- `logMessage` and the timestamps are left out. They only write to the server's console.
- `IOException`s other than the ones below are left out, including the one the
  `ClientHandler` constructor catches.
  - The closed socket after `/quit` is modelled: the next `readLine` throws, which ends
    the message loop.
  - A failed file copy is modelled, through `fs`.
- The file copy of `/file` is left out: `File.exists`, `mkdir`, the 4096-byte buffer loop
  and `getName`. The parameter `fs` stands for it and reports only the outcome.
- Lines buffered after `/quit` are not modelled. `disconnect` closes the socket, not the
  `BufferedReader`. A line that arrived in the same read as `/quit` is still returned by
  `readLine` and handled: a chat line is broadcast between the two leave notices. The
  model assumes no line is buffered after `/quit`, so `Converse` stops reading there.
- `HashSet` iteration order is the parameter `enumerate`. Any order that lists each
  element once is allowed. But `enumerate` is a function, so the same set always iterates
  in the same order. A Java `HashSet` with the same contents can iterate differently, for
  example after a resize. No proved property depends on the order being the same twice.
- `fs` is a function too, so a path always gets the same copy outcome. In Java the outcome
  can change over time. No proved property depends on this.
- `toLowerCase` and `equalsIgnoreCase` are modelled on ASCII letters only. Java's Unicode
  case mapping is not modelled. Neither is the default locale that `toLowerCase()` uses
  (ChatServer.java:134): under a Turkish locale, `/QUIT` lowercases to `/quıt` and is
  no longer routed to quit.
- The `NullPointerException` of the login check is the outcome `Crashed` instead of a
  thrown exception. What follows it is modelled: `finally` disconnects with a null username.
- Strings are sequences of Unicode characters, while Java strings are UTF-16 code units.
  `length()` and `substring(6)` (ChatClient.java:53), and the other lengths and indices,
  count characters here. They differ when a character outside the Basic Multilingual Plane
  falls in the counted part: for `/auth` followed by U+1F600, Java sees length 7 and shows
  a lone low surrogate, while the model sees length 6 and shows an empty prompt.
- `ChatClient.receiveMessages` is not modelled. It prints on its own thread, concurrently
  with the sending loop, so the client's console is the output of the constructor's thread
  only.
- `ChatClient.main` and the "Client Error" path are not modelled. The client's `close`
  failing is not modelled either.
- The client's failure on end of input is modelled, and so is a marked line too short for
  `substring(6)`. Both end the exchange as thrown exceptions. The `IOException` of
  `readLine` is not modelled.
