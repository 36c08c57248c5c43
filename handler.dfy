/** `ClientHandler`: the per-connection worker of the chat server. `HandleAuthentication`,
    `Broadcast`, `Disconnect`, `SendUserList`, `HandleFileTransfer`, `HandleCommand` and `Run`
    follow the Java methods of the same name step by step; `HandleRegistration`, `HandleLogin`,
    `EnterChat`, `SendWelcome`, `MessageLoop` and `SendHelp` are parts of one Java method each,
    and `ReadLine` and `Println` stand for the reader's and writer's library calls. Each is
    proved to have the effect the functions of module `Session` describe. */
module Handler {
  import opened Text
  import opened Registry
  import opened Authentication
  import opened Commands
  import opened Session

  class ClientHandler {
    const id: SessionId
    /** null until authentication succeeds */
    var username: Nullable
    /** the lines the client has sent that have not been read yet */
    var input: seq<string>
    /** whether the socket has been closed */
    var closed: bool
    const clients: Registry
    const userCredentials: CredentialStore
    /** the file-copy collaborator */
    const fs: string -> Transfer

    ghost predicate Valid()
      reads this, clients
    {
      clients.Valid() && id in clients.outbox
    }

    /** A newly accepted connection: its output stream is opened, nobody is logged in. */
    constructor (id: SessionId, clients: Registry, userCredentials: CredentialStore,
                 input: seq<string>, fs: string -> Transfer)
      requires clients.Valid() && id !in clients.outbox
      modifies clients
      ensures Valid() && !closed && username == Null
      ensures this.id == id && this.clients == clients && this.userCredentials == userCredentials
      ensures this.input == input && this.fs == fs
      ensures clients.members == old(clients.members)
      ensures clients.outbox == old(clients.outbox)[id := []]
    {
      this.id := id;
      this.clients := clients;
      this.userCredentials := userCredentials;
      this.input := input;
      this.fs := fs;
      username := Null;
      closed := false;
      new;
      clients.Open(id);
    }

    /** `in.readLine()`: the next line, or null at end of stream. */
    method ReadLine() returns (line: Nullable)
      modifies this`input
      ensures line == Authentication.ReadLine(old(input)) && input == Consume(old(input))
    {
      if input == [] {
        line := Null;
      } else {
        line := Str(input[0]);
        input := input[1..];
      }
    }

    /** `out.println(line)` */
    method Println(line: string)
      requires id in clients.outbox
      modifies clients
      ensures clients.members == old(clients.members)
      ensures clients.outbox == old(clients.outbox)[id := old(clients.outbox)[id] + [line]]
    {
      clients.Send(id, line);
    }

    /** `handleAuthentication`; the `NullPointerException` of the login check is returned
        as `Crashed` instead of being thrown. */
    method HandleAuthentication() returns (outcome: Outcome)
      requires id in clients.outbox
      modifies this, clients, userCredentials
      ensures closed == old(closed)
      ensures var e := Authenticate(old(input), old(userCredentials.entries));
        && outcome == e.outcome
        && userCredentials.entries == e.store
        && input == e.rest
        && clients.members == old(clients.members)
        && clients.outbox == old(clients.outbox)[id := old(clients.outbox)[id] + e.written]
        && username == (if e.outcome.Accepted? then e.outcome.name else old(username))
    {
      Println(ChoosePrompt);
      var choice := ReadLine();
      if choice == Str("2") {
        outcome := HandleRegistration();
      } else {
        outcome := HandleLogin();
      }
      AppendTwice(old(clients.outbox), id, [ChoosePrompt], Authenticate(old(input), old(userCredentials.entries)).written[1..]);
    }

    /** The register branch of `handleAuthentication`, after the choice prompt and the
        choice `"2"`. */
    method HandleRegistration() returns (outcome: Outcome)
      requires id in clients.outbox
      modifies this, clients, userCredentials
      ensures closed == old(closed)
      ensures var e := Register(old(input), old(userCredentials.entries));
        && outcome == e.outcome
        && userCredentials.entries == e.store
        && input == e.rest
        && clients.members == old(clients.members)
        && clients.outbox == old(clients.outbox)[id := old(clients.outbox)[id] + e.written]
        && username == (if e.outcome.Accepted? then e.outcome.name else old(username))
    {
      ghost var e := Register(input, userCredentials.entries);
      Println(NewNamePrompt);
      var newUsername := ReadLine();
      if newUsername in userCredentials.entries {
        Println(NameTakenReply);
        AppendTwice(old(clients.outbox), id, [NewNamePrompt], [NameTakenReply]);
        assert e.written == [NewNamePrompt] + [NameTakenReply];
        return Rejected;
      }
      Println(PasswordPrompt);
      AppendTwice(old(clients.outbox), id, [NewNamePrompt], [PasswordPrompt]);
      var password := ReadLine();
      userCredentials.Put(newUsername, password);
      username := newUsername;
      Println(RegisteredReply);
      AppendTwice(old(clients.outbox), id, [NewNamePrompt] + [PasswordPrompt], [RegisteredReply]);
      assert e.written == [NewNamePrompt] + [PasswordPrompt] + [RegisteredReply];
      return Accepted(newUsername);
    }

    /** The login branch of `handleAuthentication`, after the choice prompt and any choice
        other than `"2"`. */
    method HandleLogin() returns (outcome: Outcome)
      requires id in clients.outbox
      modifies this, clients, userCredentials
      ensures closed == old(closed)
      ensures var e := Login(old(input), old(userCredentials.entries));
        && outcome == e.outcome
        && userCredentials.entries == e.store
        && input == e.rest
        && clients.members == old(clients.members)
        && clients.outbox == old(clients.outbox)[id := old(clients.outbox)[id] + e.written]
        && username == (if e.outcome.Accepted? then e.outcome.name else old(username))
    {
      ghost var e := Login(input, userCredentials.entries);
      Println(NamePrompt);
      var loginUsername := ReadLine();
      Println(PasswordPrompt);
      AppendTwice(old(clients.outbox), id, [NamePrompt], [PasswordPrompt]);
      var password := ReadLine();
      if loginUsername in userCredentials.entries {
        var stored := userCredentials.entries[loginUsername];
        if stored.Null? {
          // stored.equals(password) dereferences null
          assert e.written == [NamePrompt] + [PasswordPrompt];
          return Crashed;
        }
        if stored == password {
          username := loginUsername;
          Println(LoggedInReply);
          AppendTwice(old(clients.outbox), id, [NamePrompt] + [PasswordPrompt], [LoggedInReply]);
          assert e.written == [NamePrompt] + [PasswordPrompt] + [LoggedInReply];
          return Accepted(loginUsername);
        }
      }
      Println(InvalidReply);
      AppendTwice(old(clients.outbox), id, [NamePrompt] + [PasswordPrompt], [InvalidReply]);
      assert e.written == [NamePrompt] + [PasswordPrompt] + [InvalidReply];
      return Rejected;
    }

    /** `broadcast(message)` */
    method Broadcast(message: string)
      requires Valid()
      modifies clients
      ensures Valid() && clients.State() == Fanout(old(clients.State()), message)
    {
      clients.Broadcast(message);
    }

    /** `disconnect`: leave the registry, tell the others, close the socket. */
    method Disconnect()
      requires Valid()
      modifies this`closed, clients
      ensures Valid() && closed
      ensures clients.State() == Session.Disconnect(old(clients.State()), id, username)
    {
      clients.Remove(id);
      Broadcast(LeaveNotice(username));
      closed := true;
    }

    /** `sendUserList`: the listing built under the set's lock, sent to this client only. */
    method SendUserList()
      requires Valid()
      modifies clients
      ensures Valid()
      ensures clients.State()
           == Write(old(clients.State()), id, Listing(clients.enumerate(old(clients.members).Keys), old(clients.members)))
    {
      var userList := clients.UserList();
      Println(userList);
    }

    /** `handleFileTransfer(path)`, with the copy itself done by the collaborator `fs`. */
    method HandleFileTransfer(path: string)
      requires Valid()
      modifies clients
      ensures Valid() && clients.State() == FileTransfer(old(clients.State()), id, username, path, fs)
    {
      match fs(path)
      case NotFound =>
        Println("File not found: " + path);
      case CopyFailed(reason) =>
        Println("Error sending file: " + reason);
      case Copied(fileName) =>
        Broadcast(SharedNotice(username, fileName));
    }

    /** The `default` case of `handleCommand`: the four lines of the help text. */
    method SendHelp()
      requires id in clients.outbox
      modifies clients
      ensures clients.members == old(clients.members)
      ensures clients.outbox == old(clients.outbox)[id := old(clients.outbox)[id] + HelpReply]
    {
      var help := HelpReply;
      Println(help[0]);
      Println(help[1]);
      AppendTwice(old(clients.outbox), id, [help[0]], [help[1]]);
      Println(help[2]);
      AppendTwice(old(clients.outbox), id, [help[0]] + [help[1]], [help[2]]);
      Println(help[3]);
      AppendTwice(old(clients.outbox), id, [help[0]] + [help[1]] + [help[2]], [help[3]]);
      assert [help[0]] + [help[1]] + [help[2]] + [help[3]] == help;
    }

    /** `handleCommand(message)`: the split, the lower-casing of the command word and the
        `switch` are the routing function `Route`; each case then acts. */
    method HandleCommand(message: string)
      requires Valid()
      modifies this`closed, clients
      ensures Valid()
      ensures var s := Execute(old(clients.State()), id, username, message, fs, clients.enumerate);
        clients.State() == s.roster && closed == (old(closed) || s.closed)
    {
      ghost var r := clients.State();
      match Route(message)
      case ShareFile(path) =>
        HandleFileTransfer(path);
        assert Execute(r, id, username, message, fs, clients.enumerate) == Step(clients.State(), false);
      case FileUsage =>
        Println(UsageReply);
        assert Execute(r, id, username, message, fs, clients.enumerate) == Step(clients.State(), false);
      case ListUsers =>
        SendUserList();
        assert Execute(r, id, username, message, fs, clients.enumerate) == Step(clients.State(), false);
      case Quit =>
        Disconnect();
        assert Execute(r, id, username, message, fs, clients.enumerate) == Step(clients.State(), true);
      case Help =>
        SendHelp();
        assert Execute(r, id, username, message, fs, clients.enumerate) == Step(clients.State(), false);
    }

    /** `run`: authenticate, join, converse until end of stream or until the socket is
        closed by `/quit` (the next `readLine` then throws), and disconnect in `finally`. */
    method Run()
      requires Valid() && !closed && username == Null
      modifies this, clients, userCredentials
      ensures Valid() && closed
      ensures var f := Session.Run(old(userCredentials.entries), old(clients.State()), id, old(input), fs, clients.enumerate);
        userCredentials.entries == f.store && clients.State() == f.roster
    {
      ghost var e := Authenticate(input, userCredentials.entries);
      ghost var r1 := WriteAll(clients.State(), id, e.written);
      var outcome := HandleAuthentication();
      assert clients.State() == r1;
      if !outcome.Accepted? {
        closed := true;  // socket.close() for a rejection; the crash skips it, disconnect closes anyway
        Disconnect();
        return;
      }
      EnterChat();
      MessageLoop();
      Disconnect();
      assert clients.State() == Admitted(r1, id, e.outcome.name, e.rest, fs, clients.enumerate);
    }

    /** The part of `run` between authentication and the message loop: register, announce
        the arrival to everyone (this session included), and send the welcome text. */
    method EnterChat()
      requires Valid()
      modifies clients
      ensures Valid()
      ensures clients.State() == WriteAll(Fanout(Join(old(clients.State()), id, username), JoinNotice(username)), id, Welcome(username))
    {
      clients.Add(id, username);
      Broadcast(JoinNotice(username));
      SendWelcome();
    }

    /** The four lines of the welcome text. */
    method SendWelcome()
      requires id in clients.outbox
      modifies clients
      ensures clients.members == old(clients.members)
      ensures clients.outbox == old(clients.outbox)[id := old(clients.outbox)[id] + Welcome(username)]
    {
      var welcome := Welcome(username);
      Println(welcome[0]);
      Println(welcome[1]);
      AppendTwice(old(clients.outbox), id, [welcome[0]], [welcome[1]]);
      Println(welcome[2]);
      AppendTwice(old(clients.outbox), id, [welcome[0]] + [welcome[1]], [welcome[2]]);
      Println(welcome[3]);
      AppendTwice(old(clients.outbox), id, [welcome[0]] + [welcome[1]] + [welcome[2]], [welcome[3]]);
      assert [welcome[0]] + [welcome[1]] + [welcome[2]] + [welcome[3]] == welcome;
    }

    /** The message loop of `run`: read a line, route a command or broadcast a chat line,
        until the input ends or `/quit` has closed the socket. */
    method MessageLoop()
      requires Valid() && !closed
      modifies this`input, this`closed, clients
      ensures Valid()
      ensures clients.State() == Converse(old(clients.State()), id, username, old(input), fs, clients.enumerate)
    {
      while !closed && input != []
        invariant Valid()
        invariant !closed ==> Converse(clients.State(), id, username, input, fs, clients.enumerate)
                              == Converse(old(clients.State()), id, username, old(input), fs, clients.enumerate)
        invariant closed ==> clients.State() == Converse(old(clients.State()), id, username, old(input), fs, clients.enumerate)
        decreases |input|
      {
        var message := ReadLine();
        if StartsWith(message.value, "/") {
          HandleCommand(message.value);
        } else {
          Broadcast(ChatLine(username, message.value));
        }
      }
    }
  }
}
