/** The request engine of the messenger's `Server` class: the connection list,
    the presence table, the user store, the eight request handlers, the
    dispatcher and the per-connection session loop. Socket I/O is reduced to
    an outbox of pushed messages per socket, and replies are returned. */
module Messenger {
  import opened Protocol
  import Lists
  import Presence
  import Store

  /** How one request ends: a reply is sent back and the session goes on, or
      an exception is raised and the session is torn down. */
  datatype Outcome = Reply(resp: Response) | Fatal

  /** Reply for a session that is not authorized as the account it names. */
  function Denied(payload: Payload): Response {
    Response(Forbidden, AccessDenied, payload)
  }

  /** The fields a handler reads from the request before any guard: a
      missing one raises `KeyError`. `send_message` reads `message` later. */
  predicate HasFields(req: Request) {
    && req.account.Some?
    && (req.action in {"check_online", "add_contact", "del_contact"} ==> req.userId.Some?)
    && (req.action in {"authorize", "register"} ==> req.password.Some?)
    && (req.action == "send_message" ==> req.to.Some?)
  }

  /** A frame the dispatcher can route: it decoded, names a known action and
      carries the fields that action reads first. */
  predicate Routable(frame: Option<Request>) {
    frame.Some? && frame.value.action in Actions && HasFields(frame.value)
  }

  /** The part of the server's state a request can change: the presence
      table, the user store and the outbox. */
  datatype Snapshot = Snapshot(logins: Presence.Table, users: Store.Users, outbox: map<Socket, seq<Message>>)

  /** Messages pushed to socket `k` in `outbox`. */
  function Inbox(outbox: map<Socket, seq<Message>>, k: Socket): seq<Message> {
    if k in outbox then outbox[k] else []
  }

  /** `check_authorization` on a snapshot. */
  predicate Authorized(st: Snapshot, s: Socket, login: Login) {
    Presence.Lookup(st.logins, s) == Some(login)
  }

  /** Every logged-in user has a row. */
  predicate Coherent(st: Snapshot) {
    forall b | b in st.logins :: b.login in st.users
  }

  /** One turn of the session loop on socket `s`: request `frame` takes the
      server from `before` to `after` with outcome `o`. An undecodable
      request, an unknown action or a missing field is fatal and changes
      nothing; each known action gets its handler's guard cascade (403, then
      the handler's 400 cases in its order, then 200) and state change. */
  ghost predicate Turn(s: Socket, frame: Option<Request>, before: Snapshot, after: Snapshot, o: Outcome) {
    Coherent(before) &&
    if !Routable(frame) then o == Fatal && after == before
    else
      var req := frame.value;
      var a := req.account.value;
      match req.action
      case "check_online" => CheckOnlineTurn(s, a, req.userId.value, before, after, o)
      case "authorize" => AuthorizeTurn(s, a, req.password.value, before, after, o)
      case "register" => RegisterTurn(a, req.password.value, before, after, o)
      case "add_contact" => AddContactTurn(s, a, req.userId.value, before, after, o)
      case "del_contact" => DelContactTurn(s, a, req.userId.value, before, after, o)
      case "get_contacts" => GetContactsTurn(s, a, before, after, o)
      case "send_message" => SendMessageTurn(s, a, req.to.value, req.message, before, after, o)
      case _ => GetMessagesTurn(s, a, before, after, o)
  }

  ghost predicate CheckOnlineTurn(s: Socket, a: Login, t: Login, before: Snapshot, after: Snapshot, o: Outcome) {
    && after == before
    && o == Reply(if !Authorized(before, s, a) then Denied(OnlineFlag(None))
                  else if t !in before.users then Response(BadRequest, NoSuchClient, OnlineFlag(None))
                  else Response(Ok, NoError, OnlineFlag(Some(Presence.IsOnline(before.logins, t)))))
  }

  ghost predicate AuthorizeTurn(s: Socket, a: Login, p: string, before: Snapshot, after: Snapshot, o: Outcome) {
    && after.users == before.users && after.outbox == before.outbox
    && o == Reply(if a !in before.users then Response(BadRequest, NoSuchClient, NoPayload)
                  else if before.users[a].password != p then Denied(NoPayload)
                  else Response(Ok, NoError, NoPayload))
    && after.logins == (if a in before.users && before.users[a].password == p
                        then Presence.Bind(before.logins, s, a) else before.logins)
  }

  ghost predicate RegisterTurn(a: Login, p: string, before: Snapshot, after: Snapshot, o: Outcome) {
    && after.logins == before.logins && after.outbox == before.outbox
    && o == Reply(if a in before.users then Response(BadRequest, LoginTaken, NoPayload)
                  else Response(Ok, NoError, NoPayload))
    && after.users == (if a in before.users then before.users else before.users[a := Store.NewRecord(p)])
  }

  ghost predicate AddContactTurn(s: Socket, a: Login, t: Login, before: Snapshot, after: Snapshot, o: Outcome)
    requires Coherent(before)
  {
    && after.logins == before.logins && after.outbox == before.outbox
    && o == Reply(if !Authorized(before, s, a) then Denied(NoPayload)
                  else if t !in before.users then Response(BadRequest, NoSuchClient, NoPayload)
                  else if t in before.users[a].contacts then Response(BadRequest, AlreadyInContacts, NoPayload)
                  else Response(Ok, NoError, NoPayload))
    && after.users == (if Authorized(before, s, a) && t in before.users && t !in before.users[a].contacts
                       then before.users[a := before.users[a].(contacts := before.users[a].contacts + [t])]
                       else before.users)
  }

  ghost predicate DelContactTurn(s: Socket, a: Login, t: Login, before: Snapshot, after: Snapshot, o: Outcome)
    requires Coherent(before)
  {
    && after.logins == before.logins && after.outbox == before.outbox
    && o == Reply(if !Authorized(before, s, a) then Denied(NoPayload)
                  else if t !in before.users then Response(BadRequest, NoSuchClient, NoPayload)
                  else if t !in before.users[a].contacts then Response(BadRequest, NotInContacts, NoPayload)
                  else Response(Ok, NoError, NoPayload))
    && after.users == (if Authorized(before, s, a) && t in before.users && t in before.users[a].contacts
                       then before.users[a := before.users[a].(contacts := Lists.RemoveFirst(before.users[a].contacts, t))]
                       else before.users)
  }

  ghost predicate GetContactsTurn(s: Socket, a: Login, before: Snapshot, after: Snapshot, o: Outcome)
    requires Coherent(before)
  {
    && after == before
    && o == Reply(if Authorized(before, s, a) then Response(Ok, NoError, ContactList(before.users[a].contacts))
                  else Denied(ContactList([])))
  }

  ghost predicate SendMessageTurn(s: Socket, a: Login, t: Login, body: Option<string>, before: Snapshot, after: Snapshot, o: Outcome) {
    var delivered := Authorized(before, s, a) && t in before.users && body.Some?;
    && after.logins == before.logins
    && o == (if !Authorized(before, s, a) then Reply(Denied(NoPayload))
             else if t !in before.users then Reply(Response(BadRequest, NoSuchClient, NoPayload))
             else if body.None? then Fatal
             else Reply(Response(Ok, NoError, NoPayload)))
    && after.users == (if delivered && !Presence.IsOnline(before.logins, t)
                       then before.users[t := before.users[t].(messages := before.users[t].messages + [Message(a, body.value)])]
                       else before.users)
    && after.outbox == (if delivered && Presence.IsOnline(before.logins, t)
                        then var k := Presence.FirstSocket(before.logins, t).value;
                             before.outbox[k := Inbox(before.outbox, k) + [Message(a, body.value)]]
                        else before.outbox)
  }

  ghost predicate GetMessagesTurn(s: Socket, a: Login, before: Snapshot, after: Snapshot, o: Outcome)
    requires Coherent(before)
  {
    && after.logins == before.logins && after.outbox == before.outbox
    && o == Reply(if Authorized(before, s, a) then Response(Ok, NoError, MessageList(before.users[a].messages))
                  else Denied(MessageList([])))
    && after.users == (if Authorized(before, s, a) then before.users[a := before.users[a].(messages := [])]
                       else before.users)
  }

  /** `trace` runs through the answered turns of a session: frame `j` took
      the server from `trace[j]` to `trace[j + 1]` and got reply `replies[j]`. */
  ghost predicate Chain(s: Socket, frames: seq<Option<Request>>, trace: seq<Snapshot>, replies: seq<Response>) {
    && |replies| <= |frames| && |trace| == |replies| + 1
    && forall j | 0 <= j < |replies| :: Turn(s, frames[j], trace[j], trace[j + 1], Reply(replies[j]))
  }

  /** One more answered turn from the last state extends the chain. */
  lemma ChainExtend(s: Socket, frames: seq<Option<Request>>, trace: seq<Snapshot>, replies: seq<Response>, after: Snapshot, r: Response)
    requires Chain(s, frames, trace, replies) && |replies| < |frames|
    requires Turn(s, frames[|replies|], trace[|replies|], after, Reply(r))
    ensures Chain(s, frames, trace + [after], replies + [r])
  {
    var trace', replies' := trace + [after], replies + [r];
    forall j | 0 <= j < |replies'|
      ensures Turn(s, frames[j], trace'[j], trace'[j + 1], Reply(replies'[j]))
    {
      if j < |replies| {
        assert trace'[j] == trace[j] && trace'[j + 1] == trace[j + 1] && replies'[j] == replies[j];
      }
    }
  }

  class Server {
    /** `self.clients`: the sockets whose session loop is running. */
    var clients: seq<Socket>
    /** `self.logins`: which socket is authorized as which login. */
    var logins: Presence.Table
    /** The `users` table of the database. */
    var users: Store.Users
    /** Everything pushed to each socket outside the request/response cycle. */
    var outbox: map<Socket, seq<Message>>

    ghost predicate Valid()
      reads this
    {
      && Presence.UniqueSockets(logins)
      && (forall b | b in logins :: b.sock in clients && b.login in users)
      && Store.WellFormed(users)
    }

    /** A server over an existing database; no connection is open yet. */
    constructor (users: Store.Users)
      requires Store.WellFormed(users)
      ensures Valid()
      ensures this.users == users && clients == [] && logins == [] && outbox == map[]
    {
      this.users := users;
      clients := [];
      logins := [];
      outbox := map[];
    }

    /** Messages pushed to socket `s` so far. */
    function Pushed(s: Socket): seq<Message>
      reads this`outbox
    {
      Inbox(outbox, s)
    }

    /** The current presence table, store and outbox. */
    function Now(): Snapshot
      reads this`logins, this`users, this`outbox
    {
      Snapshot(logins, users, outbox)
    }

    // ---------------------------------------------------------------------
    // Queries on the presence table and the store

    /** `check_authorization`: socket `s` is a key of `logins` and is bound to `login`. */
    function CheckAuthorization(s: Socket, login: Login): (ok: bool)
      reads this`logins
      ensures ok ==> Presence.Binding(s, login) in logins
      ensures Presence.UniqueSockets(logins) && Presence.Binding(s, login) in logins ==> ok
    {
      match Presence.Lookup(logins, s)
      case None => false
      case Some(bound) => bound == login
    }

    /** `login in self.logins.values()`. */
    predicate IsOnline(login: Login)
      reads this`logins
    {
      Presence.IsOnline(logins, login)
    }

    /** `check_existence`. */
    predicate CheckExistence(login: Login)
      reads this`users
    {
      login in users
    }

    /** `get_password`; the row is known to exist. */
    function GetPassword(login: Login): string
      reads this`users
      requires login in users
    {
      users[login].password
    }

    /** `in_contacts`. */
    predicate InContacts(login: Login, contact: Login)
      reads this`users
      requires login in users
    {
      contact in users[login].contacts
    }

    /** `get_client_contacts`. */
    function GetClientContacts(login: Login): seq<Login>
      reads this`users
      requires login in users
    {
      users[login].contacts
    }

    // ---------------------------------------------------------------------
    // Store writes

    /** `register`: inserts a fresh row. */
    method Register(login: Login, password: string)
      requires login !in users
      modifies this`users
      ensures users == old(users)[login := Store.NewRecord(password)]
    {
      users := users[login := Store.NewRecord(password)];
    }

    /** `add_to_contacts`: read the contact list, append, write it back. */
    method AddToContacts(login: Login, contact: Login)
      requires login in users
      modifies this`users
      ensures users == old(users)[login := old(users[login]).(contacts := old(users[login].contacts) + [contact])]
    {
      var row := users[login];
      var contacts := row.contacts;
      contacts := contacts + [contact];
      users := users[login := row.(contacts := contacts)];
    }

    /** `del_from_contacts`: read the list, delete at `index(contact)`, write it back. */
    method DelFromContacts(login: Login, contact: Login)
      requires login in users && contact in users[login].contacts
      modifies this`users
      ensures users == old(users)[login := old(users[login]).(contacts := Lists.RemoveFirst(old(users[login].contacts), contact))]
    {
      var row := users[login];
      var contacts := row.contacts;
      var i := Lists.IndexOf(contacts, contact);
      contacts := contacts[..i] + contacts[i + 1..];
      users := users[login := row.(contacts := contacts)];
    }

    /** `add_unread_messages`: read the queue, append, write it back. */
    method AddUnreadMessage(login: Login, message: Message)
      requires login in users
      modifies this`users
      ensures users == old(users)[login := old(users[login]).(messages := old(users[login].messages) + [message])]
    {
      var row := users[login];
      var messages := row.messages;
      messages := messages + [message];
      users := users[login := row.(messages := messages)];
    }

    /** `get_unread_messages`: read the queue, store `'[]'`, return what was read. */
    method GetUnreadMessages(login: Login) returns (messages: seq<Message>)
      requires login in users
      modifies this`users
      ensures messages == old(users[login].messages)
      ensures users == old(users)[login := old(users[login]).(messages := [])]
    {
      messages := users[login].messages;
      users := users[login := users[login].(messages := [])];
    }

    // ---------------------------------------------------------------------
    // Request handlers. Each starts from a 200 reply and overwrites it at the
    // first guard that fails.

    /** `check_online`. */
    method CheckOnline(s: Socket, account: Login, target: Login) returns (resp: Response)
      ensures !CheckAuthorization(s, account) ==> resp == Denied(OnlineFlag(None))
      ensures CheckAuthorization(s, account) && target !in users ==>
        resp == Response(BadRequest, NoSuchClient, OnlineFlag(None))
      ensures CheckAuthorization(s, account) && target in users ==>
        && resp.status == Ok && resp.error == NoError && resp.payload.OnlineFlag?
        && (resp.payload.online == Some(true) <==> exists b | b in logins :: b.login == target)
        && (resp.payload.online == Some(false) <==> forall b | b in logins :: b.login != target)
    {
      resp := Response(Ok, NoError, OnlineFlag(None));
      if !CheckAuthorization(s, account) {
        resp := resp.(status := Forbidden, error := AccessDenied);
      } else if !CheckExistence(target) {
        resp := resp.(status := BadRequest, error := NoSuchClient);
      } else if IsOnline(target) {
        resp := resp.(payload := OnlineFlag(Some(true)));
      } else {
        resp := resp.(payload := OnlineFlag(Some(false)));
      }
    }

    /** `authorization`: binds the socket to the login when the password matches. */
    method Authorization(s: Socket, account: Login, password: string) returns (resp: Response)
      requires Valid() && s in clients
      modifies this`logins
      ensures Valid()
      ensures account !in users ==>
        resp == Response(BadRequest, NoSuchClient, NoPayload) && logins == old(logins)
      ensures account in users && users[account].password != password ==>
        resp == Denied(NoPayload) && logins == old(logins)
      ensures account in users && users[account].password == password ==>
        resp == Response(Ok, NoError, NoPayload) && logins == Presence.Bind(old(logins), s, account)
      ensures resp.status == Ok ==> CheckAuthorization(s, account)
      ensures forall s' | s' != s :: Presence.Lookup(logins, s') == Presence.Lookup(old(logins), s')
    {
      resp := Response(Ok, NoError, NoPayload);
      if !CheckExistence(account) {
        resp := resp.(status := BadRequest, error := NoSuchClient);
      } else {
        var stored := GetPassword(account);
        if stored != password {
          resp := resp.(status := Forbidden, error := AccessDenied);
        } else {
          logins := Presence.Bind(logins, s, account);
        }
      }
      forall s' | s' != s
        ensures Presence.Lookup(logins, s') == Presence.Lookup(old(logins), s')
      {
        Presence.BindLookup(old(logins), s, account, s');
      }
    }

    /** `registration`. */
    method Registration(account: Login, password: string) returns (resp: Response)
      requires Valid()
      modifies this`users
      ensures Valid()
      ensures account in old(users) ==>
        resp == Response(BadRequest, LoginTaken, NoPayload) && users == old(users)
      ensures account !in old(users) ==>
        resp == Response(Ok, NoError, NoPayload) && users == old(users)[account := Store.NewRecord(password)]
    {
      resp := Response(Ok, NoError, NoPayload);
      if CheckExistence(account) {
        resp := resp.(status := BadRequest, error := LoginTaken);
      } else {
        Store.RegisterKeepsWellFormed(users, account, password);
        Register(account, password);
      }
    }

    /** `add_contact`: authorization, then target exists, then not yet a contact. */
    method AddContact(s: Socket, account: Login, target: Login) returns (resp: Response)
      requires Valid()
      modifies this`users
      ensures Valid()
      ensures !CheckAuthorization(s, account) ==>
        resp == Denied(NoPayload) && users == old(users)
      ensures CheckAuthorization(s, account) && target !in old(users) ==>
        resp == Response(BadRequest, NoSuchClient, NoPayload) && users == old(users)
      ensures CheckAuthorization(s, account) && target in old(users) && target in old(users[account].contacts) ==>
        resp == Response(BadRequest, AlreadyInContacts, NoPayload) && users == old(users)
      ensures CheckAuthorization(s, account) && target in old(users) && target !in old(users[account].contacts) ==>
        && resp == Response(Ok, NoError, NoPayload)
        && users == old(users)[account := old(users[account]).(contacts := old(users[account].contacts) + [target])]
    {
      resp := Response(Ok, NoError, NoPayload);
      if !CheckAuthorization(s, account) {
        resp := resp.(status := Forbidden, error := AccessDenied);
      } else if !CheckExistence(target) {
        resp := resp.(status := BadRequest, error := NoSuchClient);
      } else if InContacts(account, target) {
        resp := resp.(status := BadRequest, error := AlreadyInContacts);
      } else {
        Store.AppendContactKeepsWellFormed(users, account, target);
        AddToContacts(account, target);
      }
    }

    /** `del_contact`: authorization, then target exists, then is a contact. */
    method DelContact(s: Socket, account: Login, target: Login) returns (resp: Response)
      requires Valid()
      modifies this`users
      ensures Valid()
      ensures !CheckAuthorization(s, account) ==>
        resp == Denied(NoPayload) && users == old(users)
      ensures CheckAuthorization(s, account) && target !in old(users) ==>
        resp == Response(BadRequest, NoSuchClient, NoPayload) && users == old(users)
      ensures CheckAuthorization(s, account) && target in old(users) && target !in old(users[account].contacts) ==>
        resp == Response(BadRequest, NotInContacts, NoPayload) && users == old(users)
      ensures CheckAuthorization(s, account) && target in old(users) && target in old(users[account].contacts) ==>
        && resp == Response(Ok, NoError, NoPayload)
        && users == old(users)[account := old(users[account]).(contacts := Lists.RemoveFirst(old(users[account].contacts), target))]
        && target !in users[account].contacts
    {
      resp := Response(Ok, NoError, NoPayload);
      if !CheckAuthorization(s, account) {
        resp := resp.(status := Forbidden, error := AccessDenied);
      } else if !CheckExistence(target) {
        resp := resp.(status := BadRequest, error := NoSuchClient);
      } else if !InContacts(account, target) {
        resp := resp.(status := BadRequest, error := NotInContacts);
      } else {
        Store.RemoveContactKeepsWellFormed(users, account, target);
        DelFromContacts(account, target);
      }
    }

    /** `get_contacts`. In a valid state an authorized account always exists,
        so the 400 branch is never taken. */
    method GetContacts(s: Socket, account: Login) returns (resp: Response)
      ensures !CheckAuthorization(s, account) ==> resp == Denied(ContactList([]))
      ensures CheckAuthorization(s, account) && account !in users ==>
        resp == Response(BadRequest, NoSuchClient, ContactList([]))
      ensures CheckAuthorization(s, account) && account in users ==>
        resp == Response(Ok, NoError, ContactList(users[account].contacts))
      ensures Valid() ==> resp.status != BadRequest
    {
      resp := Response(Ok, NoError, ContactList([]));
      if !CheckAuthorization(s, account) {
        resp := resp.(status := Forbidden, error := AccessDenied);
      } else if !CheckExistence(account) {
        resp := resp.(status := BadRequest, error := NoSuchClient);
      } else {
        resp := resp.(payload := ContactList(GetClientContacts(account)));
      }
    }

    /** `handle_message`: push to the recipient's first socket when it is
        online, otherwise append one copy to its pending queue. The body is
        read only once both guards pass, so a missing body is fatal only then. */
    method HandleMessage(s: Socket, account: Login, to: Login, body: Option<string>) returns (o: Outcome)
      requires Valid()
      modifies this`users, this`outbox
      ensures Valid()
      ensures !CheckAuthorization(s, account) ==>
        o == Reply(Denied(NoPayload)) && users == old(users) && outbox == old(outbox)
      ensures CheckAuthorization(s, account) && to !in old(users) ==>
        o == Reply(Response(BadRequest, NoSuchClient, NoPayload)) && users == old(users) && outbox == old(outbox)
      ensures CheckAuthorization(s, account) && to in old(users) && body.None? ==>
        o == Fatal && users == old(users) && outbox == old(outbox)
      ensures CheckAuthorization(s, account) && to in old(users) && body.Some? ==>
        o == Reply(Response(Ok, NoError, NoPayload))
      ensures CheckAuthorization(s, account) && to in old(users) && body.Some? && IsOnline(to) ==>
        && users == old(users)
        && var target := Presence.FirstSocket(logins, to).value;
           outbox == old(outbox)[target := old(Pushed(target)) + [Message(account, body.value)]]
      ensures CheckAuthorization(s, account) && to in old(users) && body.Some? && !IsOnline(to) ==>
        && outbox == old(outbox)
        && users == old(users)[to := old(users[to]).(messages := old(users[to].messages) + [Message(account, body.value)])]
    {
      o := Reply(Response(Ok, NoError, NoPayload));
      if !CheckAuthorization(s, account) {
        o := Reply(Denied(NoPayload));
      } else if !CheckExistence(to) {
        o := Reply(Response(BadRequest, NoSuchClient, NoPayload));
      } else if body.None? {
        o := Fatal;
      } else if IsOnline(to) {
        var message := Message(account, body.value);
        var target := Presence.FindSocket(logins, to);
        outbox := outbox[target.value := Pushed(target.value) + [message]];
      } else {
        var message := Message(account, body.value);
        Store.SetMessagesKeepsWellFormed(users, to, users[to].messages + [message]);
        AddUnreadMessage(to, message);
      }
    }

    /** `get_messages`: returns the whole pending queue and empties it. */
    method GetMessages(s: Socket, account: Login) returns (resp: Response)
      requires Valid()
      modifies this`users
      ensures Valid()
      ensures !CheckAuthorization(s, account) ==>
        resp == Denied(MessageList([])) && users == old(users)
      ensures CheckAuthorization(s, account) && account !in old(users) ==>
        resp == Response(BadRequest, NoSuchClient, MessageList([])) && users == old(users)
      ensures CheckAuthorization(s, account) && account in old(users) ==>
        && resp == Response(Ok, NoError, MessageList(old(users[account].messages)))
        && users == old(users)[account := old(users[account]).(messages := [])]
        && users[account].messages == []
    {
      resp := Response(Ok, NoError, MessageList([]));
      if !CheckAuthorization(s, account) {
        resp := resp.(status := Forbidden, error := AccessDenied);
      } else if !CheckExistence(account) {
        resp := resp.(status := BadRequest, error := NoSuchClient);
      } else {
        Store.SetMessagesKeepsWellFormed(users, account, []);
        var messages := GetUnreadMessages(account);
        resp := resp.(payload := MessageList(messages));
      }
    }

    // ---------------------------------------------------------------------
    // Connection lifecycle and dispatch (`mainloop`)

    /** A new session registers its socket in `self.clients`. */
    method Connect(s: Socket)
      requires Valid()
      modifies this`clients
      ensures Valid()
      ensures clients == old(clients) + [s]
    {
      clients := clients + [s];
    }

    /** The `except` branch of the session loop: close the socket, remove it
        from `self.clients` and drop its entry from `self.logins` if it has one. */
    method Teardown(s: Socket)
      requires Valid() && s in clients
      modifies this`clients, this`logins
      ensures Valid()
      ensures clients == Lists.RemoveFirst(old(clients), s)
      ensures logins == Presence.Unbind(old(logins), s)
      ensures Presence.Lookup(logins, s) == None
      ensures forall s' | s' != s :: Presence.Lookup(logins, s') == Presence.Lookup(old(logins), s')
      ensures forall l :: IsOnline(l) <==> exists b | b in old(logins) :: b.sock != s && b.login == l
    {
      ghost var t := logins;
      var r := Presence.Unbind(logins, s);
      Presence.UnbindLookup(t, s, s);
      forall s' | s' != s
        ensures Presence.Lookup(r, s') == Presence.Lookup(t, s')
      {
        Presence.UnbindLookup(t, s, s');
      }
      forall l
        ensures Presence.IsOnline(r, l) <==> exists b | b in t :: b.sock != s && b.login == l
      {
        Presence.UnbindOnline(t, s, l);
      }
      clients := Lists.RemoveFirst(clients, s);
      forall b | b in r
        ensures b.sock in clients
      {
        assert b in t && b.sock != s;
      }
      logins := r;
    }

    /** One turn of the session loop: route the decoded request by its action.
        An undecodable request, an unknown action or a missing field raises,
        which the caller turns into a teardown. */
    method Dispatch(s: Socket, frame: Option<Request>) returns (o: Outcome)
      requires Valid() && s in clients
      modifies this`logins, this`users, this`outbox
      ensures Valid()
      ensures frame.None? ==> o == Fatal
      ensures frame.Some? && frame.value.action !in Actions ==> o == Fatal
      ensures frame.Some? && frame.value.action in Actions && HasFields(frame.value) && frame.value.action != "send_message" ==> o.Reply?
      ensures !Routable(frame) ==> o == Fatal
      ensures o.Fatal? ==> logins == old(logins) && users == old(users) && outbox == old(outbox)
      ensures forall s' | s' != s :: Presence.Lookup(logins, s') == Presence.Lookup(old(logins), s')
      ensures Turn(s, frame, old(Now()), Now(), o)
    {
      if frame.None? {
        return Fatal;
      }
      var req := frame.value;
      if req.action !in Actions || !HasFields(req) {
        return Fatal;
      }
      var resp: Response;
      if req.action == "check_online" {
        resp := CheckOnline(s, req.account.value, req.userId.value);
      } else if req.action == "authorize" {
        resp := Authorization(s, req.account.value, req.password.value);
      } else if req.action == "register" {
        resp := Registration(req.account.value, req.password.value);
      } else if req.action == "add_contact" {
        resp := AddContact(s, req.account.value, req.userId.value);
      } else if req.action == "del_contact" {
        resp := DelContact(s, req.account.value, req.userId.value);
      } else if req.action == "get_contacts" {
        resp := GetContacts(s, req.account.value);
      } else if req.action == "send_message" {
        o := HandleMessage(s, req.account.value, req.to.value, req.message);
        return;
      } else {
        resp := GetMessages(s, req.account.value);
      }
      o := Reply(resp);
    }

    /** The `while True` loop of `mainloop` on a connected socket: dispatch
        the decoded requests in order until one is fatal or the frames run
        out. `trace` holds the state before each turn and after the last. */
    method Session(s: Socket, frames: seq<Option<Request>>) returns (replies: seq<Response>, ghost trace: seq<Snapshot>)
      requires Valid() && s in clients
      modifies this`logins, this`users, this`outbox
      ensures Valid()
      ensures |replies| <= |frames| && |trace| == |replies| + 1
      ensures trace[0] == old(Now()) && trace[|replies|] == Now()
      ensures forall j | 0 <= j < |replies| :: Turn(s, frames[j], trace[j], trace[j + 1], Reply(replies[j]))
      ensures |replies| < |frames| ==> Turn(s, frames[|replies|], trace[|replies|], trace[|replies|], Fatal)
      ensures forall s' | s' != s :: Presence.Lookup(logins, s') == Presence.Lookup(old(logins), s')
      ensures forall j | 0 <= j < |replies| :: Routable(frames[j])
      ensures |replies| < |frames| ==>
        || !Routable(frames[|replies|])
        || (frames[|replies|].value.action == "send_message" && frames[|replies|].value.message.None?)
    {
      replies, trace := [], [Now()];
      var i := 0;
      while i < |frames|
        invariant Valid()
        invariant i <= |frames| && |replies| == i && |trace| == i + 1
        invariant trace[0] == old(Now()) && trace[i] == Now()
        invariant Chain(s, frames, trace, replies)
        invariant forall s' | s' != s :: Presence.Lookup(logins, s') == Presence.Lookup(old(logins), s')
        invariant forall j | 0 <= j < i :: Routable(frames[j])
      {
        var o := Dispatch(s, frames[i]);
        if o.Fatal? {
          assert !Routable(frames[i]) || (frames[i].value.action == "send_message" && frames[i].value.message.None?);
          return;
        }
        ChainExtend(s, frames, trace, replies, Now(), o.resp);
        replies, trace := replies + [o.resp], trace + [Now()];
        i := i + 1;
      }
    }

    /** `mainloop` for one accepted socket: serve the decoded requests in
        order until one is fatal or the peer stops sending (the read then
        fails), and tear the session down either way. Each answered frame
        and the frame that ends the session early are turns of `Dispatch`
        through the states in `trace`. */
    method Serve(s: Socket, frames: seq<Option<Request>>) returns (replies: seq<Response>, ghost trace: seq<Snapshot>)
      requires Valid() && s !in clients
      modifies this`clients, this`logins, this`users, this`outbox
      ensures Valid()
      ensures |replies| <= |frames| && |trace| == |replies| + 1
      ensures trace[0] == old(Now())
      ensures forall j | 0 <= j < |replies| :: Turn(s, frames[j], trace[j], trace[j + 1], Reply(replies[j]))
      ensures |replies| < |frames| ==> Turn(s, frames[|replies|], trace[|replies|], trace[|replies|], Fatal)
      ensures users == trace[|replies|].users && outbox == trace[|replies|].outbox
      ensures logins == Presence.Unbind(trace[|replies|].logins, s)
      ensures clients == old(clients)
      ensures Presence.Lookup(logins, s) == None
      ensures forall s' | s' != s :: Presence.Lookup(logins, s') == Presence.Lookup(old(logins), s')
      ensures forall j | 0 <= j < |replies| :: Routable(frames[j])
      ensures forall j | 0 <= j < |frames| && !Routable(frames[j]) :: |replies| <= j
      ensures |replies| < |frames| ==>
        || !Routable(frames[|replies|])
        || (frames[|replies|].value.action == "send_message" && frames[|replies|].value.message.None?)
    {
      Connect(s);
      replies, trace := Session(s, frames);
      Lists.AppendThenRemoveFirst(old(clients), s);
      Teardown(s);
    }
  }
}
