/** The shared registry of connected sessions (`ChatServer.clients`) and the output
    stream of every connection. The `synchronized` sections of the server become single
    method calls on the `Registry` object; the pure functions below state what each does. */
module Registry {
  import opened Text

  /** Identity of one `ClientHandler`. */
  type SessionId = nat

  /** The registry's value: the registered sessions, each with the username its handler
      carries, and, for every accepted connection (registered or not), the lines written
      to its output stream so far, one entry per `println` argument. */
  datatype Roster = Roster(members: map<SessionId, Nullable>, outbox: map<SessionId, seq<string>>) {
    /** Only a connection that exists can be registered. */
    ghost predicate Valid() {
      members.Keys <= outbox.Keys
    }
  }

  /** `order` lists each element of `s` exactly once, in some order. */
  ghost predicate Enumerates(order: seq<SessionId>, s: set<SessionId>) {
    && (forall i, j :: 0 <= i < j < |order| ==> order[i] != order[j])
    && (forall x :: x in order <==> x in s)
  }

  /** An iteration order for `HashSet`: some listing of every set, without repetition. */
  ghost predicate IterationOrder(enumerate: set<SessionId> -> seq<SessionId>) {
    forall s :: Enumerates(enumerate(s), s)
  }

  /** `out.println(line)` on connection `id`. */
  function Write(r: Roster, id: SessionId, line: string): (r': Roster)
    requires id in r.outbox
    ensures r'.members == r.members && r'.outbox.Keys == r.outbox.Keys
    ensures r'.outbox[id] == r.outbox[id] + [line]
    ensures forall x :: x in r.outbox && x != id ==> r'.outbox[x] == r.outbox[x]
  {
    r.(outbox := r.outbox[id := r.outbox[id] + [line]])
  }

  /** Several `println` calls on connection `id`, in order. */
  function WriteAll(r: Roster, id: SessionId, lines: seq<string>): (r': Roster)
    requires id in r.outbox
    ensures r'.members == r.members && r'.outbox.Keys == r.outbox.Keys
    ensures r'.outbox[id] == r.outbox[id] + lines
    ensures forall x :: x in r.outbox && x != id ==> r'.outbox[x] == r.outbox[x]
  {
    r.(outbox := r.outbox[id := r.outbox[id] + lines])
  }

  /** Writing `a` and then `b` to one stream writes `a + b`. */
  lemma AppendTwice(outbox: map<SessionId, seq<string>>, id: SessionId, a: seq<string>, b: seq<string>)
    requires id in outbox
    ensures outbox[id := outbox[id] + a][id := outbox[id] + a + b] == outbox[id := outbox[id] + (a + b)]
  {
    assert outbox[id] + a + b == outbox[id] + (a + b);
  }

  /** Appends `m` to the stream of every connection in `to`, and to no other. */
  function Deliver(outbox: map<SessionId, seq<string>>, to: set<SessionId>, m: string)
    : (o: map<SessionId, seq<string>>)
    ensures o.Keys == outbox.Keys
    ensures forall x :: x in outbox && x in to ==> o[x] == outbox[x] + [m]
    ensures forall x :: x in outbox && x !in to ==> o[x] == outbox[x]
  {
    map x | x in outbox :: if x in to then outbox[x] + [m] else outbox[x]
  }

  /** `ClientHandler.broadcast`: every registered session, the sender included, gets `m`. */
  function Fanout(r: Roster, m: string): (r': Roster)
    requires r.Valid()
    ensures r'.Valid() && r'.members == r.members
    ensures r'.outbox == Deliver(r.outbox, r.members.Keys, m)
  {
    r.(outbox := Deliver(r.outbox, r.members.Keys, m))
  }

  /** `clients.add(this)` */
  function Join(r: Roster, id: SessionId, name: Nullable): (r': Roster)
    requires r.Valid() && id in r.outbox
    ensures r'.Valid() && r'.outbox == r.outbox
    ensures r'.members.Keys == r.members.Keys + {id} && r'.members[id] == name
    ensures forall x :: x in r.members && x != id ==> r'.members[x] == r.members[x]
  {
    r.(members := r.members[id := name])
  }

  /** `clients.remove(this)`; removing a session that is not registered changes nothing. */
  function Leave(r: Roster, id: SessionId): (r': Roster)
    requires r.Valid()
    ensures r'.Valid() && r'.outbox == r.outbox
    ensures r'.members.Keys == r.members.Keys - {id}
    ensures forall x :: x in r'.members ==> r'.members[x] == r.members[x]
  {
    r.(members := r.members - {id})
  }

  /** First line of the `/users` reply. */
  const UsersHeader := "Connected users:\n"

  /** The line `sendUserList` appends for one session. */
  function UserEntry(name: Nullable): string {
    "- " + Show(name) + "\n"
  }

  /** The entries for the sessions of `order`, in that order. */
  function UserLines(order: seq<SessionId>, members: map<SessionId, Nullable>): string
    requires forall x :: x in order ==> x in members
  {
    if order == [] then ""
    else UserLines(order[..|order| - 1], members) + UserEntry(members[order[|order| - 1]])
  }

  /** The `/users` reply when the registry is iterated in `order`. */
  function Listing(order: seq<SessionId>, members: map<SessionId, Nullable>): string
    requires forall x :: x in order ==> x in members
  {
    UsersHeader + UserLines(order, members)
  }

  /** The reply names every session of the iteration, each on an entry of its own. */
  lemma {:induction false} UserLinesNameEveryone(order: seq<SessionId>, members: map<SessionId, Nullable>, k: nat)
    requires forall x :: x in order ==> x in members
    requires k < |order|
    ensures Contains(UserLines(order, members), UserEntry(members[order[k]]))
  {
    var init := order[..|order| - 1];
    assert forall x :: x in init ==> x in order;
    var front := UserLines(init, members);
    var entry := UserEntry(members[order[|order| - 1]]);
    var whole := front + entry;
    if k == |order| - 1 {
      assert whole[|front|..|front| + |entry|] == entry;
      ContainsAt(whole, entry, |front|);
    } else {
      assert order[k] == init[k];
      UserLinesNameEveryone(init, members, k);
      var e := UserEntry(members[order[k]]);
      var i :| 0 <= i <= |front| - |e| && OccursAt(front, e, i);
      assert whole[i..i + |e|] == front[i..i + |e|];
      ContainsAt(whole, e, i);
    }
  }

  /** Whatever the iteration order, the `/users` reply starts with the header and names
      every registered session. */
  lemma ListingNamesEveryMember(order: seq<SessionId>, members: map<SessionId, Nullable>, x: SessionId)
    requires Enumerates(order, members.Keys) && x in members
    ensures StartsWith(Listing(order, members), UsersHeader)
    ensures Contains(Listing(order, members), UserEntry(members[x]))
  {
    var k :| 0 <= k < |order| && order[k] == x;
    UserLinesNameEveryone(order, members, k);
    var lines := UserLines(order, members);
    var e := UserEntry(members[x]);
    var i :| 0 <= i <= |lines| - |e| && OccursAt(lines, e, i);
    var all := Listing(order, members);
    assert all[|UsersHeader| + i..|UsersHeader| + i + |e|] == lines[i..i + |e|];
    ContainsAt(all, e, |UsersHeader| + i);
  }

  /** Removal is idempotent: removing twice is removing once. */
  lemma LeaveIdempotent(r: Roster, id: SessionId)
    requires r.Valid()
    ensures Leave(Leave(r, id), id) == Leave(r, id)
    ensures id !in r.members ==> Leave(r, id) == r
  {
  }

  /** The shared registry object. `members` and `outbox` are its state; `enumerate` is
      the order in which the `HashSet` is iterated. */
  class Registry {
    var members: map<SessionId, Nullable>
    var outbox: map<SessionId, seq<string>>
    const enumerate: set<SessionId> -> seq<SessionId>

    ghost predicate Valid()
      reads this
    {
      State().Valid() && IterationOrder(enumerate)
    }

    /** The registry's current value. */
    function State(): (r: Roster)
      reads this
      ensures r.members == members && r.outbox == outbox
    {
      Roster(members, outbox)
    }

    constructor (enumerate: set<SessionId> -> seq<SessionId>)
      requires IterationOrder(enumerate)
      ensures Valid() && this.enumerate == enumerate
      ensures members == map[] && outbox == map[]
    {
      this.enumerate := enumerate;
      members, outbox := map[], map[];
    }

    /** A connection is accepted: its output stream starts empty. */
    method Open(id: SessionId)
      requires Valid() && id !in outbox
      modifies this
      ensures Valid() && members == old(members)
      ensures outbox == old(outbox)[id := []]
    {
      outbox := outbox[id := []];
    }

    /** `out.println(line)` on connection `id`. */
    method Send(id: SessionId, line: string)
      requires id in outbox
      modifies this
      ensures members == old(members) && outbox == old(outbox)[id := old(outbox)[id] + [line]]
    {
      outbox := outbox[id := outbox[id] + [line]];
    }

    /** `clients.add(handler)` */
    method Add(id: SessionId, name: Nullable)
      requires Valid() && id in outbox
      modifies this
      ensures Valid() && State() == Join(old(State()), id, name)
    {
      members := members[id := name];
    }

    /** `clients.remove(handler)` */
    method Remove(id: SessionId)
      requires Valid()
      modifies this
      ensures Valid() && State() == Leave(old(State()), id)
    {
      members := members - {id};
    }

    /** `broadcast(m)`: one pass over the set, under its lock, writing `m` to each. */
    method Broadcast(m: string)
      requires Valid()
      modifies this
      ensures Valid() && State() == Fanout(old(State()), m)
    {
      var order := enumerate(members.Keys);
      var i := 0;
      while i < |order|
        invariant 0 <= i <= |order|
        invariant members == old(members) && outbox.Keys == old(outbox).Keys
        invariant forall x :: x in outbox ==>
          outbox[x] == old(outbox)[x] + (if x in order[..i] then [m] else [])
      {
        var client := order[i];
        assert client !in order[..i];
        outbox := outbox[client := outbox[client] + [m]];
        assert order[..i + 1] == order[..i] + [client];
        i := i + 1;
      }
      assert order[..i] == order;
    }

    /** `sendUserList`'s pass over the set: the header and one entry per registered
        session, in iteration order; every registered session is named. */
    method UserList() returns (text: string)
      requires Valid()
      ensures text == Listing(enumerate(members.Keys), members)
      ensures forall x :: x in members ==> Contains(text, UserEntry(members[x]))
    {
      var order := enumerate(members.Keys);
      text := UsersHeader;
      var i := 0;
      while i < |order|
        invariant 0 <= i <= |order|
        invariant text == UsersHeader + UserLines(order[..i], members)
      {
        assert order[..i + 1][..i] == order[..i];
        text := text + UserEntry(members[order[i]]);
        i := i + 1;
      }
      assert order[..i] == order;
      forall x | x in members
        ensures Contains(text, UserEntry(members[x]))
      {
        ListingNamesEveryMember(order, members, x);
      }
    }
  }
}
