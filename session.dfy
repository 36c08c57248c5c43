/** What one connection's `ClientHandler.run` does to the shared state, as functions:
    authentication, joining, the message loop with its commands, and leaving. The
    imperative `ClientHandler` class is proved to follow these functions. */
module Session {
  import opened Text
  import opened Registry
  import opened Authentication
  import opened Commands

  /** What the file-copy collaborator reports for a path: the file does not exist, the copy
      threw an `IOException` with this message, or the copy succeeded under this name. */
  datatype Transfer = NotFound | CopyFailed(reason: string) | Copied(fileName: string)

  function JoinNotice(name: Nullable): string {
    Show(name) + " has joined the chat!"
  }

  function LeaveNotice(name: Nullable): string {
    Show(name) + " has left the chat!"
  }

  /** How a chat line is rendered for everyone. */
  function ChatLine(name: Nullable, text: string): string {
    Show(name) + ": " + text
  }

  function SharedNotice(name: Nullable, fileName: string): string {
    Show(name) + " shared file: " + fileName
  }

  /** The welcome message an admitted session receives after the join notice. */
  function Welcome(name: Nullable): seq<string> {
    ["Welcome " + Show(name) + "! Commands available:"] + CommandSummary
  }

  /** A stream only ever grows: everything written before stays in front. */
  predicate Extends(before: map<SessionId, seq<string>>, after: map<SessionId, seq<string>>) {
    forall x :: x in before ==> x in after && |before[x]| <= |after[x]| && after[x][..|before[x]|] == before[x]
  }

  lemma ExtendsTransitive(a: map<SessionId, seq<string>>, b: map<SessionId, seq<string>>, c: map<SessionId, seq<string>>)
    requires Extends(a, b) && Extends(b, c)
    ensures Extends(a, c)
  {
    forall x | x in a
      ensures |a[x]| <= |c[x]| && c[x][..|a[x]|] == a[x]
    {
      assert c[x][..|b[x]|][..|a[x]|] == c[x][..|a[x]|];
    }
  }

  /** `disconnect`: the session is removed first, then the leave notice goes to everyone
      still registered, so the leaver never receives its own notice. */
  function Disconnect(r: Roster, id: SessionId, name: Nullable): (r': Roster)
    requires r.Valid()
    ensures r'.Valid() && r'.outbox.Keys == r.outbox.Keys
    ensures r'.members.Keys == r.members.Keys - {id}
  {
    Fanout(Leave(r, id), LeaveNotice(name))
  }

  /** `disconnect` tells every other registered session, and nobody else: the leaver and
      the connections that never registered get nothing, and the rest keep their names. */
  lemma DisconnectNotifiesOthers(r: Roster, id: SessionId, name: Nullable)
    requires r.Valid()
    ensures var r' := Disconnect(r, id, name);
      && (forall x :: x in r'.members ==> r'.members[x] == r.members[x])
      && (id in r.outbox ==> r'.outbox[id] == r.outbox[id])
      && (forall x :: x in r.members && x != id ==> r'.outbox[x] == r.outbox[x] + [LeaveNotice(name)])
      && (forall x :: x in r.outbox && x !in r.members ==> r'.outbox[x] == r.outbox[x])
  {
  }

  /** `handleFileTransfer(path)`: a copied file is announced to everyone; a missing file or
      a failed copy is reported to the issuer only. */
  function FileTransfer(r: Roster, id: SessionId, name: Nullable, path: string, fs: string -> Transfer): (r': Roster)
    requires r.Valid() && id in r.outbox
    ensures r'.Valid() && r'.members == r.members && r'.outbox.Keys == r.outbox.Keys
    ensures !fs(path).Copied? ==>
      && |r'.outbox[id]| == |r.outbox[id]| + 1
      && (forall x :: x in r.outbox && x != id ==> r'.outbox[x] == r.outbox[x])
    ensures fs(path).NotFound? ==> r'.outbox[id] == r.outbox[id] + ["File not found: " + path]
    ensures fs(path).CopyFailed? ==> r'.outbox[id] == r.outbox[id] + ["Error sending file: " + fs(path).reason]
    ensures fs(path).Copied? ==>
      forall x :: x in r.members ==> r'.outbox[x] == r.outbox[x] + [SharedNotice(name, fs(path).fileName)]
    ensures fs(path).Copied? ==>
      forall x :: x in r.outbox && x !in r.members ==> r'.outbox[x] == r.outbox[x]
  {
    match fs(path)
    case NotFound => Write(r, id, "File not found: " + path)
    case CopyFailed(reason) => Write(r, id, "Error sending file: " + reason)
    case Copied(fileName) => Fanout(r, SharedNotice(name, fileName))
  }

  /** The registry after one handled line, and whether the connection's socket is now closed. */
  datatype Step = Step(roster: Roster, closed: bool)

  /** `handleCommand(message)` */
  function Execute(r: Roster, id: SessionId, name: Nullable, message: string,
                   fs: string -> Transfer, enumerate: set<SessionId> -> seq<SessionId>): (s: Step)
    requires r.Valid() && id in r.outbox && IterationOrder(enumerate)
    ensures s.roster.Valid() && s.roster.outbox.Keys == r.outbox.Keys
    ensures if s.closed then s.roster.members == r.members - {id} else s.roster.members == r.members
  {
    match Route(message)
    case ShareFile(path) => Step(FileTransfer(r, id, name, path, fs), false)
    case FileUsage => Step(Write(r, id, UsageReply), false)
    case ListUsers => Step(Write(r, id, Listing(enumerate(r.members.Keys), r.members)), false)
    case Quit => Step(Disconnect(r, id, name), true)
    case Help => Step(WriteAll(r, id, HelpReply), false)
  }

  /** One line read in the message loop: a command, or a chat line for everyone. */
  function Handle(r: Roster, id: SessionId, name: Nullable, line: string,
                  fs: string -> Transfer, enumerate: set<SessionId> -> seq<SessionId>): (s: Step)
    requires r.Valid() && id in r.outbox && IterationOrder(enumerate)
    ensures s.roster.Valid() && s.roster.outbox.Keys == r.outbox.Keys
    ensures if s.closed then s.roster.members == r.members - {id} else s.roster.members == r.members
  {
    if StartsWith(line, "/") then Execute(r, id, name, line, fs, enumerate)
    else Step(Fanout(r, ChatLine(name, line)), false)
  }

  /** The message loop, until the input ends or, after `/quit` closed the socket, the next
      `readLine` throws. Only the session's own registration can change. */
  function Converse(r: Roster, id: SessionId, name: Nullable, input: seq<string>,
                    fs: string -> Transfer, enumerate: set<SessionId> -> seq<SessionId>): (r': Roster)
    requires r.Valid() && id in r.outbox && IterationOrder(enumerate)
    ensures r'.Valid() && r'.outbox.Keys == r.outbox.Keys
    ensures r'.members.Keys - {id} == r.members.Keys - {id}
    ensures forall x :: x in r'.members && x != id ==> x in r.members && r'.members[x] == r.members[x]
    decreases |input|
  {
    if input == [] then r
    else
      var s := Handle(r, id, name, input[0], fs, enumerate);
      if s.closed then s.roster
      else Converse(s.roster, id, name, input[1..], fs, enumerate)
  }

  /** The part of `run` after a successful authentication, from the registry `r1` that
      already holds the `/auth` lines: join, announce, welcome, converse, disconnect. */
  function Admitted(r1: Roster, id: SessionId, name: Nullable, rest: seq<string>,
                    fs: string -> Transfer, enumerate: set<SessionId> -> seq<SessionId>): (r': Roster)
    requires r1.Valid() && id in r1.outbox && IterationOrder(enumerate)
    ensures r'.Valid() && r'.outbox.Keys == r1.outbox.Keys
    ensures r'.members.Keys == r1.members.Keys - {id}
    ensures forall x :: x in r'.members ==> r'.members[x] == r1.members[x]
  {
    var r2 := Fanout(Join(r1, id, name), JoinNotice(name));
    var r3 := WriteAll(r2, id, Welcome(name));
    Disconnect(Converse(r3, id, name, rest, fs, enumerate), id, name)
  }

  /** What `run` leaves behind: the credential store and the registry. */
  datatype Finish = Finish(store: Store, roster: Roster)

  /** `run`: authenticate; if admitted, join, announce, welcome and converse; in every case
      the `finally` block disconnects, with a null username when authentication failed. */
  function Run(store: Store, r: Roster, id: SessionId, input: seq<string>,
               fs: string -> Transfer, enumerate: set<SessionId> -> seq<SessionId>): (f: Finish)
    requires r.Valid() && id in r.outbox && IterationOrder(enumerate)
    ensures f.roster.Valid() && f.roster.outbox.Keys == r.outbox.Keys
  {
    var e := Authenticate(input, store);
    var r1 := WriteAll(r, id, e.written);
    if e.outcome.Accepted? then
      Finish(e.store, Admitted(r1, id, e.outcome.name, e.rest, fs, enumerate))
    else
      Finish(e.store, Disconnect(r1, id, Null))
  }

  /** Appending to one stream keeps everything written before. */
  lemma AppendExtends(outbox: map<SessionId, seq<string>>, id: SessionId, lines: seq<string>)
    requires id in outbox
    ensures Extends(outbox, outbox[id := outbox[id] + lines])
  {
    assert (outbox[id] + lines)[..|outbox[id]|] == outbox[id];
  }

  /** A broadcast keeps everything written before. */
  lemma DeliverExtends(outbox: map<SessionId, seq<string>>, to: set<SessionId>, m: string)
    ensures Extends(outbox, Deliver(outbox, to, m))
  {
    forall x | x in outbox && x in to
      ensures (outbox[x] + [m])[..|outbox[x]|] == outbox[x]
    {
    }
  }

  /** One handled line only appends to streams. */
  lemma HandleExtends(r: Roster, id: SessionId, name: Nullable, line: string,
                      fs: string -> Transfer, enumerate: set<SessionId> -> seq<SessionId>)
    requires r.Valid() && id in r.outbox && IterationOrder(enumerate)
    ensures Extends(r.outbox, Handle(r, id, name, line, fs, enumerate).roster.outbox)
  {
    if !StartsWith(line, "/") {
      DeliverExtends(r.outbox, r.members.Keys, ChatLine(name, line));
    } else {
      ExecuteExtends(r, id, name, line, fs, enumerate);
    }
  }

  lemma ExecuteExtends(r: Roster, id: SessionId, name: Nullable, message: string,
                       fs: string -> Transfer, enumerate: set<SessionId> -> seq<SessionId>)
    requires r.Valid() && id in r.outbox && IterationOrder(enumerate)
    ensures Extends(r.outbox, Execute(r, id, name, message, fs, enumerate).roster.outbox)
  {
    match Route(message)
    case ShareFile(path) =>
      match fs(path) {
        case NotFound => AppendExtends(r.outbox, id, ["File not found: " + path]);
        case CopyFailed(reason) => AppendExtends(r.outbox, id, ["Error sending file: " + reason]);
        case Copied(fileName) => DeliverExtends(r.outbox, r.members.Keys, SharedNotice(name, fileName));
      }
    case FileUsage => AppendExtends(r.outbox, id, [UsageReply]);
    case ListUsers => AppendExtends(r.outbox, id, [Listing(enumerate(r.members.Keys), r.members)]);
    case Quit => DeliverExtends(r.outbox, (r.members - {id}).Keys, LeaveNotice(name));
    case Help => AppendExtends(r.outbox, id, HelpReply);
  }

  /** The message loop never takes back a line already written to any connection. */
  lemma {:induction false} ConverseExtends(r: Roster, id: SessionId, name: Nullable, input: seq<string>,
                                           fs: string -> Transfer, enumerate: set<SessionId> -> seq<SessionId>)
    requires r.Valid() && id in r.outbox && IterationOrder(enumerate)
    ensures Extends(r.outbox, Converse(r, id, name, input, fs, enumerate).outbox)
    decreases |input|
  {
    if input == [] {
      assert Extends(r.outbox, r.outbox);
    } else {
      var s := Handle(r, id, name, input[0], fs, enumerate);
      HandleExtends(r, id, name, input[0], fs, enumerate);
      if !s.closed {
        ConverseExtends(s.roster, id, name, input[1..], fs, enumerate);
        ExtendsTransitive(r.outbox, s.roster.outbox, Converse(s.roster, id, name, input[1..], fs, enumerate).outbox);
      }
    }
  }

  /** A line that does not start with `/`, the empty line included, is sent to every
      registered session, the sender among them, as `name: line`. */
  lemma ChatLineReachesEveryone(r: Roster, id: SessionId, name: Nullable, line: string,
                                fs: string -> Transfer, enumerate: set<SessionId> -> seq<SessionId>)
    requires r.Valid() && id in r.outbox && IterationOrder(enumerate)
    requires !StartsWith(line, "/")
    ensures var s := Handle(r, id, name, line, fs, enumerate);
      && !s.closed && s.roster.members == r.members
      && (forall x :: x in r.members ==> s.roster.outbox[x] == r.outbox[x] + [Show(name) + ": " + line])
      && (forall x :: x in r.outbox && x !in r.members ==> s.roster.outbox[x] == r.outbox[x])
  {
  }

  /** `/file` without an argument, a missing file, a failed copy, `/users` and an unknown
      command are answered on the issuer's stream only; the registry is unchanged. */
  lemma RepliesReachIssuerOnly(r: Roster, id: SessionId, name: Nullable, message: string,
                               fs: string -> Transfer, enumerate: set<SessionId> -> seq<SessionId>)
    requires r.Valid() && id in r.outbox && IterationOrder(enumerate)
    requires StartsWith(message, "/")
    requires Route(message) in {FileUsage, ListUsers, Help}
          || (Route(message).ShareFile? && !fs(Route(message).path).Copied?)
    ensures var s := Handle(r, id, name, message, fs, enumerate);
      && !s.closed && s.roster.members == r.members
      && (forall x :: x in r.outbox && x != id ==> s.roster.outbox[x] == r.outbox[x])
      && |s.roster.outbox[id]| > |r.outbox[id]|
      && (Route(message) == FileUsage ==> s.roster.outbox[id] == r.outbox[id] + [UsageReply])
      && (Route(message) == Help ==> s.roster.outbox[id] == r.outbox[id] + HelpReply)
  {
  }

  /** The `/users` reply goes to the issuer only, starts with the header and names every
      registered session, whatever order the set is iterated in. */
  lemma UsersReplyNamesEveryone(r: Roster, id: SessionId, name: Nullable, message: string,
                                fs: string -> Transfer, enumerate: set<SessionId> -> seq<SessionId>)
    requires r.Valid() && id in r.outbox && IterationOrder(enumerate)
    requires StartsWith(message, "/") && Route(message) == ListUsers
    ensures var s := Handle(r, id, name, message, fs, enumerate);
      var reply := s.roster.outbox[id][|r.outbox[id]|];
      && |s.roster.outbox[id]| == |r.outbox[id]| + 1
      && StartsWith(reply, UsersHeader)
      && (forall x :: x in r.members ==> Contains(reply, UserEntry(r.members[x])))
  {
    var order := enumerate(r.members.Keys);
    forall x | x in r.members
      ensures StartsWith(Listing(order, r.members), UsersHeader)
      ensures Contains(Listing(order, r.members), UserEntry(r.members[x]))
    {
      ListingNamesEveryMember(order, r.members, x);
    }
    if r.members == map[] {
      assert UsersHeader + "" == UsersHeader;
    }
  }

  /** A copied file is announced to every registered session, the sender included, and to
      no connection that has not registered. */
  lemma SharedFileAnnounced(r: Roster, id: SessionId, name: Nullable, message: string,
                            fs: string -> Transfer, enumerate: set<SessionId> -> seq<SessionId>)
    requires r.Valid() && id in r.outbox && IterationOrder(enumerate)
    requires StartsWith(message, "/") && Route(message).ShareFile? && fs(Route(message).path).Copied?
    ensures var s := Handle(r, id, name, message, fs, enumerate);
      var notice := Show(name) + " shared file: " + fs(Route(message).path).fileName;
      && !s.closed && s.roster.members == r.members
      && (forall x :: x in r.members ==> s.roster.outbox[x] == r.outbox[x] + [notice])
      && (forall x :: x in r.outbox && x !in r.members ==> s.roster.outbox[x] == r.outbox[x])
  {
  }

  /** `/quit` ends the loop: whatever follows it is never read. */
  lemma QuitStopsReading(r: Roster, id: SessionId, name: Nullable, quit: string, more: seq<string>,
                         fs: string -> Transfer, enumerate: set<SessionId> -> seq<SessionId>)
    requires r.Valid() && id in r.outbox && IterationOrder(enumerate)
    requires StartsWith(quit, "/") && Route(quit) == Quit
    ensures Converse(r, id, name, [quit] + more, fs, enumerate) == Disconnect(r, id, name)
  {
  }

  /** The `finally` block after a failed authentication: `disconnect` with a null
      username, after the `/auth` lines were written to the session's own stream. */
  lemma AnonymousDisconnect(r: Roster, id: SessionId, lines: seq<string>)
    requires r.Valid() && id in r.outbox && id !in r.members
    ensures var f := Disconnect(WriteAll(r, id, lines), id, Null);
      && f.members == r.members
      && f.outbox[id] == r.outbox[id] + lines
      && (forall x :: x in r.members ==> f.outbox[x] == r.outbox[x] + ["null has left the chat!"])
      && (forall x :: x in r.outbox && x !in r.members && x != id ==> f.outbox[x] == r.outbox[x])
  {
    assert LeaveNotice(Null) == "null has left the chat!";
  }

  /** A failed or aborted authentication never registers the session. Its own stream gets
      exactly the `/auth` lines, the store is unchanged, and the `finally` block still tells
      every registered session "null has left the chat!". */
  lemma FailedAuthenticationNeverJoins(store: Store, r: Roster, id: SessionId, input: seq<string>,
                                       fs: string -> Transfer, enumerate: set<SessionId> -> seq<SessionId>)
    requires r.Valid() && id in r.outbox && IterationOrder(enumerate) && id !in r.members
    requires !Authenticate(input, store).outcome.Accepted?
    ensures var f := Run(store, r, id, input, fs, enumerate);
      && f.store == store
      && f.roster.members == r.members
      && f.roster.outbox[id] == r.outbox[id] + Authenticate(input, store).written
      && (forall x :: x in r.members ==> f.roster.outbox[x] == r.outbox[x] + ["null has left the chat!"])
      && (forall x :: x in r.outbox && x !in r.members && x != id ==> f.roster.outbox[x] == r.outbox[x])
  {
    var e := Authenticate(input, store);
    StoreOnlyGrows(input, store);
    assert Run(store, r, id, input, fs, enumerate).roster == Disconnect(WriteAll(r, id, e.written), id, Null);
    AnonymousDisconnect(r, id, e.written);
  }

  /** After `clients.add` and the join broadcast, and the welcome to the newcomer: every
      registered session, the newcomer included, has the join notice, and the newcomer
      has the welcome after it. */
  lemma JoinThenWelcome(r1: Roster, id: SessionId, name: Nullable)
    requires r1.Valid() && id in r1.outbox && id !in r1.members
    ensures var r3 := WriteAll(Fanout(Join(r1, id, name), JoinNotice(name)), id, Welcome(name));
      && r3.members.Keys == r1.members.Keys + {id}
      && r3.outbox[id] == r1.outbox[id] + [JoinNotice(name)] + Welcome(name)
      && (forall x :: x in r1.members ==> r3.outbox[x] == r1.outbox[x] + [JoinNotice(name)])
  {
  }

  /** `disconnect` only appends to streams. */
  lemma DisconnectExtends(r: Roster, id: SessionId, name: Nullable)
    requires r.Valid()
    ensures Extends(r.outbox, Disconnect(r, id, name).outbox)
  {
    DeliverExtends(r.outbox, (r.members - {id}).Keys, LeaveNotice(name));
  }

  /** The admitted part puts the session's own join notice and the welcome in its stream,
      the join notice in every other registered stream, and ends with the session gone. */
  lemma AdmittedHearsOwnJoin(r1: Roster, id: SessionId, name: Nullable, rest: seq<string>,
                             fs: string -> Transfer, enumerate: set<SessionId> -> seq<SessionId>)
    requires r1.Valid() && id in r1.outbox && IterationOrder(enumerate) && id !in r1.members
    ensures var f := Admitted(r1, id, name, rest, fs, enumerate);
      var head := r1.outbox[id] + [JoinNotice(name)] + Welcome(name);
      && f.members.Keys == r1.members.Keys
      && |head| <= |f.outbox[id]| && f.outbox[id][..|head|] == head
      && (forall x :: x in r1.members ==>
            |r1.outbox[x]| < |f.outbox[x]| && f.outbox[x][|r1.outbox[x]|] == JoinNotice(name))
  {
    var r3 := WriteAll(Fanout(Join(r1, id, name), JoinNotice(name)), id, Welcome(name));
    var r4 := Converse(r3, id, name, rest, fs, enumerate);
    var f := Disconnect(r4, id, name);
    JoinThenWelcome(r1, id, name);
    ConverseExtends(r3, id, name, rest, fs, enumerate);
    DisconnectExtends(r4, id, name);
    ExtendsTransitive(r3.outbox, r4.outbox, f.outbox);
    forall x | x in r1.members
      ensures |r1.outbox[x]| < |f.outbox[x]| && f.outbox[x][|r1.outbox[x]|] == JoinNotice(name)
    {
      var before, joined, after := r1.outbox[x], r3.outbox[x], f.outbox[x];
      assert joined == before + [JoinNotice(name)];
      assert after[..|joined|] == joined;
      assert after[|before|] == after[..|joined|][|before|] == joined[|before|];
    }
  }

  /** An admitted session is registered before the join notice goes out, so its own stream
      shows the `/auth` lines, its own join notice and the welcome, in that order; every other
      registered session receives the join notice; and the session ends unregistered. */
  lemma AdmittedSessionHearsOwnJoin(store: Store, r: Roster, id: SessionId, input: seq<string>,
                                    fs: string -> Transfer, enumerate: set<SessionId> -> seq<SessionId>)
    requires r.Valid() && id in r.outbox && IterationOrder(enumerate) && id !in r.members
    requires Authenticate(input, store).outcome.Accepted?
    ensures var f := Run(store, r, id, input, fs, enumerate);
      var e := Authenticate(input, store);
      var name := e.outcome.name;
      var head := r.outbox[id] + e.written + [JoinNotice(name)] + Welcome(name);
      && f.store == e.store
      && f.roster.members.Keys == r.members.Keys
      && |head| <= |f.roster.outbox[id]| && f.roster.outbox[id][..|head|] == head
      && (forall x :: x in r.members ==>
            |r.outbox[x]| < |f.roster.outbox[x]| && f.roster.outbox[x][|r.outbox[x]|] == JoinNotice(name))
  {
    var e := Authenticate(input, store);
    var r1 := WriteAll(r, id, e.written);
    AdmittedHearsOwnJoin(r1, id, e.outcome.name, e.rest, fs, enumerate);
  }

  /** One line and then two more are three lines. */
  lemma Regroup<T>(s: seq<T>, a: T, b: T, c: T)
    ensures s + [a] + [b, c] == s + [a, b, c]
  {
    assert s + [a] + [b, c] == s + ([a] + [b, c]);
  }

  /** Disconnecting twice removes the session once and announces its leaving twice. */
  lemma DisconnectTwice(r: Roster, id: SessionId, name: Nullable)
    requires r.Valid()
    ensures var f := Disconnect(Disconnect(r, id, name), id, name);
      && f.members == Leave(r, id).members
      && forall x :: x in r.members && x != id ==>
           f.outbox[x] == r.outbox[x] + [LeaveNotice(name), LeaveNotice(name)]
  {
    var once := Disconnect(r, id, name);
    forall x | x in r.members && x != id
      ensures Disconnect(once, id, name).outbox[x] == r.outbox[x] + [LeaveNotice(name), LeaveNotice(name)]
    {
      assert once.outbox[x] == r.outbox[x] + [LeaveNotice(name)];
    }
  }

  /** `/quit` as the first line of the message loop: the session disconnects, and the
      `finally` block disconnects it again. */
  lemma AdmittedQuitLeavesTwice(r1: Roster, id: SessionId, name: Nullable, rest: seq<string>,
                                fs: string -> Transfer, enumerate: set<SessionId> -> seq<SessionId>)
    requires r1.Valid() && id in r1.outbox && IterationOrder(enumerate) && id !in r1.members
    requires rest != [] && StartsWith(rest[0], "/") && Route(rest[0]) == Quit
    ensures var f := Admitted(r1, id, name, rest, fs, enumerate);
      forall x :: x in r1.members ==>
        f.outbox[x] == r1.outbox[x] + [JoinNotice(name), LeaveNotice(name), LeaveNotice(name)]
  {
    var r3 := WriteAll(Fanout(Join(r1, id, name), JoinNotice(name)), id, Welcome(name));
    assert rest == [rest[0]] + rest[1..];
    QuitStopsReading(r3, id, name, rest[0], rest[1..], fs, enumerate);
    JoinThenWelcome(r1, id, name);
    DisconnectTwice(r3, id, name);
    var f := Disconnect(Disconnect(r3, id, name), id, name);
    forall x | x in r1.members
      ensures f.outbox[x] == r1.outbox[x] + [JoinNotice(name), LeaveNotice(name), LeaveNotice(name)]
    {
      Regroup(r1.outbox[x], JoinNotice(name), LeaveNotice(name), LeaveNotice(name));
    }
  }

  /** `/quit` disconnects once and the `finally` block disconnects again: every other
      registered session hears the join notice and then the leave notice twice. */
  lemma QuitAnnouncesLeaveTwice(store: Store, r: Roster, id: SessionId, input: seq<string>,
                                fs: string -> Transfer, enumerate: set<SessionId> -> seq<SessionId>)
    requires r.Valid() && id in r.outbox && IterationOrder(enumerate) && id !in r.members
    requires Authenticate(input, store).outcome.Accepted?
    requires var rest := Authenticate(input, store).rest;
      rest != [] && StartsWith(rest[0], "/") && Route(rest[0]) == Quit
    ensures var f := Run(store, r, id, input, fs, enumerate);
      var name := Authenticate(input, store).outcome.name;
      forall x :: x in r.members ==>
        f.roster.outbox[x] == r.outbox[x] + [JoinNotice(name), LeaveNotice(name), LeaveNotice(name)]
  {
    var e := Authenticate(input, store);
    AdmittedQuitLeavesTwice(WriteAll(r, id, e.written), id, e.outcome.name, e.rest, fs, enumerate);
  }
}
