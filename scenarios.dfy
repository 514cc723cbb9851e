/** Client-side runs of the request engine: sequences of requests whose
    combined effect follows from the handlers' contracts alone. */
module Scenarios {
  import opened Protocol
  import Lists
  import Presence
  import Store
  import opened Messenger

  /** Registering a taken login is refused and keeps the first registration. */
  method RegisterTwice(server: Server, login: Login, first: string, second: string)
    returns (r1: Response, r2: Response)
    requires server.Valid() && login !in server.users
    modifies server
    ensures server.Valid()
    ensures r1.status == Ok && r2 == Response(BadRequest, LoginTaken, NoPayload)
    ensures server.users == old(server.users)[login := Store.NewRecord(first)]
  {
    r1 := server.Registration(login, first);
    r2 := server.Registration(login, second);
  }

  /** Adding a contact and then deleting it gives back the store as it was. */
  method AddThenDelete(server: Server, s: Socket, account: Login, target: Login)
    returns (added: Response, deleted: Response)
    requires server.Valid() && server.CheckAuthorization(s, account)
    requires target in server.users && account in server.users
    requires target !in server.users[account].contacts
    modifies server
    ensures server.Valid()
    ensures added.status == Ok && deleted.status == Ok
    ensures server.users == old(server.users)
  {
    ghost var before := server.users;
    ghost var row := before[account];
    added := server.AddContact(s, account, target);
    assert server.users == before[account := row.(contacts := row.contacts + [target])];
    assert target in server.users[account].contacts;
    deleted := server.DelContact(s, account, target);
    Lists.AppendThenRemoveFirst(row.contacts, target);
    assert server.users[account] == row;
  }

  /** Deleting a user who was never added is refused with `NotInContacts`. */
  method DeleteBeforeAdd(server: Server, s: Socket, account: Login, target: Login)
    returns (deleted: Response)
    requires server.Valid() && server.CheckAuthorization(s, account)
    requires target in server.users && account in server.users
    requires target !in server.users[account].contacts
    modifies server
    ensures server.Valid()
    ensures deleted == Response(BadRequest, NotInContacts, NoPayload)
    ensures server.users == old(server.users)
  {
    deleted := server.DelContact(s, account, target);
  }

  /** Draining the pending queue twice: the second call finds it empty. */
  method DrainTwice(server: Server, s: Socket, account: Login)
    returns (first: Response, second: Response)
    requires server.Valid() && server.CheckAuthorization(s, account)
    modifies server
    ensures server.Valid()
    ensures account in old(server.users)
    ensures first == Response(Ok, NoError, MessageList(old(server.users[account].messages)))
    ensures second == Response(Ok, NoError, MessageList([]))
  {
    first := server.GetMessages(s, account);
    second := server.GetMessages(s, account);
  }

  /** A fresh server whose store holds just `a` and `b`. */
  method TwoUsers(a: Login, pa: string, b: Login, pb: string) returns (server: Server)
    requires a != b
    ensures fresh(server) && server.Valid()
    ensures server.users == map[a := Store.NewRecord(pa), b := Store.NewRecord(pb)]
    ensures server.clients == [] && server.logins == [] && server.outbox == map[]
  {
    server := new Server(map[]);
    var r := server.Registration(a, pa);
    r := server.Registration(b, pb);
  }

  /** `a` and `b` are registered and `a` is logged in on socket `sa`. */
  method FirstLogsIn(a: Login, pa: string, b: Login, pb: string, sa: Socket) returns (server: Server)
    requires a != b
    ensures fresh(server) && server.Valid()
    ensures server.users == map[a := Store.NewRecord(pa), b := Store.NewRecord(pb)]
    ensures server.clients == [sa] && server.logins == [Presence.Binding(sa, a)] && server.outbox == map[]
  {
    server := TwoUsers(a, pa, b, pb);
    server.Connect(sa);
    assert a in server.users && server.users[a].password == pa;
    var r := server.Authorization(sa, a, pa);
    assert Presence.Lookup([], sa) == None;
  }

  /** `a` logs in and sends to `b`, who is offline: one copy is queued for `b`. */
  method SendToOffline(a: Login, pa: string, b: Login, pb: string, sa: Socket, text: string)
    returns (server: Server, sent: Outcome)
    requires a != b
    ensures fresh(server) && server.Valid()
    ensures sent == Reply(Response(Ok, NoError, NoPayload))
    ensures server.users == map[a := Store.NewRecord(pa), b := Store.UserRecord(pb, [], [Message(a, text)])]
    ensures server.clients == [sa] && server.logins == [Presence.Binding(sa, a)]
    ensures server.outbox == map[]
  {
    server := FirstLogsIn(a, pa, b, pb, sa);
    assert !server.IsOnline(b);
    assert server.CheckAuthorization(sa, a);
    assert b in server.users && server.users[b].messages == [];
    ghost var before := server.users;
    sent := server.HandleMessage(sa, a, b, Some(text));
    assert before[b].messages + [Message(a, text)] == [Message(a, text)];
  }

  /** `a` sends to `b` while `b` is offline; `b` then logs in and drains its
      queue: it gets the message exactly once, and a second drain is empty. */
  method OfflineDelivery(a: Login, pa: string, b: Login, pb: string, sa: Socket, sb: Socket, text: string)
    returns (sent: Outcome, first: Response, second: Response)
    requires a != b && sa != sb
    ensures sent == Reply(Response(Ok, NoError, NoPayload))
    ensures first == Response(Ok, NoError, MessageList([Message(a, text)]))
    ensures second == Response(Ok, NoError, MessageList([]))
  {
    var server;
    server, sent := SendToOffline(a, pa, b, pb, sa, text);
    server.Connect(sb);
    var r := server.Authorization(sb, b, pb);
    assert server.logins == [Presence.Binding(sa, a), Presence.Binding(sb, b)];
    assert server.CheckAuthorization(sb, b);
    first, second := DrainTwice(server, sb, b);
  }

  /** Both users log in, `a` first: the presence table lists them in that order. */
  method BothLogIn(a: Login, pa: string, b: Login, pb: string, sa: Socket, sb: Socket) returns (server: Server)
    requires a != b && sa != sb
    ensures fresh(server) && server.Valid()
    ensures server.users == map[a := Store.NewRecord(pa), b := Store.NewRecord(pb)]
    ensures server.clients == [sa, sb] && server.outbox == map[]
    ensures server.logins == [Presence.Binding(sa, a), Presence.Binding(sb, b)]
  {
    server := FirstLogsIn(a, pa, b, pb, sa);
    server.Connect(sb);
    var r := server.Authorization(sb, b, pb);
    assert server.logins == [Presence.Binding(sa, a), Presence.Binding(sb, b)];
  }

  /** `a` sends to `b` while `b` is online: `b`'s socket receives one push
      from `a` and `b`'s pending queue stays empty. */
  method OnlineDelivery(a: Login, pa: string, b: Login, pb: string, sa: Socket, sb: Socket, text: string)
    returns (sent: Outcome, pushed: seq<Message>, pending: Response)
    requires a != b && sa != sb
    ensures sent == Reply(Response(Ok, NoError, NoPayload))
    ensures pushed == [Message(a, text)]
    ensures pending == Response(Ok, NoError, MessageList([]))
  {
    var server := BothLogIn(a, pa, b, pb, sa, sb);
    assert server.IsOnline(b);
    assert Presence.FirstSocket(server.logins, b) == Some(sb);
    sent := server.HandleMessage(sa, a, b, Some(text));
    assert server.users[b].messages == [];
    pushed := server.Pushed(sb);
    pending := server.GetMessages(sb, b);
  }
}
